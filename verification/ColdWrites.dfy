/** Writes to a cold handle: the download comes first, and whatever error it meets is ignored. */
module ColdWrites {
  import opened Bytes
  import opened Handler
  import opened Options
  import opened LoneClient

  predicate Kept(c: seq<byte>, c': seq<byte>, i: nat) {
    i < |c| && i < |c'| && c'[i] == c[i]
  }

  /** The bytes of `c` outside the written range are still there. */
  predicate OutsideSurvives(c: seq<byte>, c': seq<byte>, off: nat, len: nat) {
    forall i: nat | i < |c| && !(off <= i < off + len) :: Kept(c, c', i)
  }

  /** What an acknowledged write leaves on the remote, from any handle: the patch of the content it started from, which
      is the cache, or what its download brought. */
  lemma AcknowledgedWrite(h: Handle, r: Remote, b: seq<byte>, off: nat, a: Replies)
    requires h.Consistent() && WriteAtSpec(h, r, WriteAt(b, off), a).Acknowledged()
    ensures var start := if !h.valid && DownloadSucceeds(r, a) then FileBytes(r) else h.Content();
            Current(WriteAtSpec(h, r, WriteAt(b, off), a).r) == Some(Apply(start, Write(off, b)))
  {
    AnyCall(h, r, WriteAt(b, off), a);
    FoldOne(Loaded(h, r, a).Content(), Write(off, b));
  }

  /** A write leaves what was outside its range as it was in the content it started from, grown to its end. */
  lemma OutsideOfPatch(c: seq<byte>, start: seq<byte>, b: seq<byte>, off: nat)
    ensures OutsideSurvives(c, Apply(start, Write(off, b)), off, |b|) <==>
            OutsideSurvives(c, Grow(start, off + |b|), off, |b|)
  {
    var grown, patched := Grow(start, off + |b|), Apply(start, Write(off, b));
    forall i: nat | i < |c| && !(off <= i < off + |b|) ensures Kept(c, patched, i) <==> Kept(c, grown, i) {
    }
  }

  /** An acknowledged write, from any handle, keeps the bytes outside its range if and only if a cold handle's download
      succeeded or saw no file, or the cache it started from has those bytes already. */
  lemma BytesOutsideTheWrite(h: Handle, r: Remote, b: seq<byte>, off: nat, a: Replies)
    requires h.Consistent() && WriteAtSpec(h, r, WriteAt(b, off), a).Acknowledged()
    ensures var c := FileBytes(r);
            OutsideSurvives(c, FileBytes(WriteAtSpec(h, r, WriteAt(b, off), a).r), off, |b|) <==>
            || (!h.valid && DownloadSucceeds(r, a))
            || OutsideSurvives(c, Grow(h.Content(), off + |b|), off, |b|)
  {
    AcknowledgedWrite(h, r, b, off, a);
    OutsideOfPatch(FileBytes(r), if !h.valid && DownloadSucceeds(r, a) then FileBytes(r) else h.Content(), b, off);
  }

  /** For a new handle: unless the download failed, or the bytes it could not see are inside what it writes or zeros
      before it. */
  lemma BytesOutsideTheFirstWrite(r: Remote, b: seq<byte>, off: nat, a: Replies)
    requires WriteAtSpec(FRESH, r, WriteAt(b, off), a).Acknowledged()
    ensures var c := FileBytes(r);
            OutsideSurvives(c, FileBytes(WriteAtSpec(FRESH, r, WriteAt(b, off), a).r), off, |b|)
            <==> DownloadSucceeds(r, a) || (|c| <= off + |b| && forall i: nat | i < |c| && i < off :: c[i] == 0)
  {
    BytesOutsideTheWrite(FRESH, r, b, off, a);
    var c, grown := FileBytes(r), Grow([], off + |b|);
    if |c| > off + |b| {
      assert !Kept(c, grown, |c| - 1);
    } else if i: nat :| i < |c| && i < off && c[i] != 0 {
      assert !Kept(c, grown, i);
    }
  }

  // ----- what an ignored error leads to -----

  const IGNORED_ERROR := Replies(Failed, Failed, Granted, Granted)

  /** The run in which the ignored error destroys data: one byte written at offset 2 replaces a prefix by zeros. */
  lemma IgnoredDownloadErrorZeroesPrefix()
    ensures var after := WriteAtSpec(FRESH, [Some([7, 8, 9])], WriteAt([5], 2), IGNORED_ERROR);
            after.Acknowledged() && Current(after.r) == Some([0, 0, 5])
  {
    AcknowledgedWrite(FRESH, [Some([7, 8, 9])], [5], 2, IGNORED_ERROR);
    assert Apply([], Write(2, [5])) == [0, 0, 5];
  }

  const SEVEN: Remote := [Some([7])]
  const COLD_WITH_CACHE := Handle(Some([5]), false, 1, 2)

  lemma FirstWriteIgnoresTheError()
    ensures var after := WriteAtSpec(FRESH, SEVEN, WriteAt([5], 0), IGNORED_ERROR);
            after.h == COLD_WITH_CACHE && after.r == [Some([7]), Some([5])]
  {
    var c := Call.WriteAt([5], 0);
    assert c.Mutations() == [Write(0, [5])];
    assert Apply([], Write(0, [5])) == [5];
    FoldOne([], Write(0, [5]));
    AnyCall(FRESH, SEVEN, c, IGNORED_ERROR);
  }

  lemma SecondWriteIgnoresTheError()
    ensures var r := [Some([7]), Some([5])];
            var after := WriteAtSpec(COLD_WITH_CACHE, r, WriteAt([6], 1), IGNORED_ERROR);
            after.Acknowledged() && !DownloadSucceeds(r, IGNORED_ERROR) && Current(after.r) == Some([5, 6])
  {
    assert Apply([5], Write(1, [6])) == [5, 6];
    AcknowledgedWrite(COLD_WITH_CACHE, [Some([7]), Some([5])], [6], 1, IGNORED_ERROR);
  }

  /** A handle can be cold and yet have a cache and an ETag: after a write that ignored an error. The next write then
      starts from that cache, and here keeps the byte before it although its download fails too. */
  lemma ColdHandleWithACache()
    ensures var (h, r) := Run(FRESH, SEVEN, [Request(WriteAt([5], 0), IGNORED_ERROR)]);
            && h == COLD_WITH_CACHE && !h.valid && !DownloadSucceeds(r, IGNORED_ERROR)
            && var after := WriteAtSpec(h, r, WriteAt([6], 1), IGNORED_ERROR);
               after.Acknowledged() && Current(after.r) == Some([5, 6])
  {
    var qs := [Request(WriteAt([5], 0), IGNORED_ERROR)];
    assert qs[..0] == [] && Run(FRESH, SEVEN, []) == (FRESH, SEVEN);
    FirstWriteIgnoresTheError();
    SecondWriteIgnoresTheError();
  }

  /** A write of no bytes past the end extends the file with zeros up to its offset; anywhere else it changes
      nothing. */
  lemma EmptyWriteExtends(h: Handle, r: Remote, off: nat, a: Replies)
    requires h.Consistent()
    ensures var start := Loaded(h, r, a).Content();
            && WriteAtSpec(h, r, WriteAt([], off), a).h.Content() == Grow(start, off)
            && (WriteAtSpec(h, r, WriteAt([], off), a).h.Content() == start <==> off <= |start|)
  {
    AnyCall(h, r, WriteAt([], off), a);
    FoldOne(Loaded(h, r, a).Content(), Write(off, []));
    assert Apply(Loaded(h, r, a).Content(), Write(off, [])) == Grow(Loaded(h, r, a).Content(), off);
  }
}
