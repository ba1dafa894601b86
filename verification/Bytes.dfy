/** The simple file that an open handle stands for: a byte sequence with pwrite, truncate and pread.
    Everything the cache does is measured against these definitions. */
module Bytes {

  newtype byte = x: int | 0 <= x < 256

  function Zeros(n: nat): (z: seq<byte>)
    ensures |z| == n && forall i | 0 <= i < n :: z[i] == 0
  {
    seq(n, _ => 0)
  }

  /** `s` extended with zero bytes up to length `n`; never shorter than before. */
  function Grow(s: seq<byte>, n: nat): (g: seq<byte>)
    ensures |g| == if |s| < n then n else |s|
    ensures forall i | 0 <= i < |g| :: g[i] == if i < |s| then s[i] else 0
  {
    if |s| < n then s + Zeros(n - |s|) else s
  }

  /** `s` with the bytes from `off` on replaced by `b`. */
  function Overwrite(s: seq<byte>, off: nat, b: seq<byte>): seq<byte>
    requires off + |b| <= |s|
  {
    seq(|s|, i requires 0 <= i < |s| => if off <= i < off + |b| then b[i - off] else s[i])
  }

  function Resize(s: seq<byte>, n: nat): seq<byte> {
    if n <= |s| then s[..n] else Grow(s, n)
  }

  /** The two requests that change a file. */
  datatype Mutation = Write(off: nat, data: seq<byte>) | SetLength(size: nat) {
    predicate Covers(i: nat) {
      Write? && off <= i < off + |data|
    }

    function ByteFor(i: nat): byte
      requires Covers(i)
    {
      data[i - off]
    }
  }

  function Apply(s: seq<byte>, m: Mutation): seq<byte> {
    match m
    case Write(off, data) => Overwrite(Grow(s, off + |data|), off, data)
    case SetLength(n) => Resize(s, n)
  }

  /** The file after the mutations `ms`, applied from first to last. */
  function Fold(s: seq<byte>, ms: seq<Mutation>): seq<byte> {
    if ms == [] then s else Apply(Fold(s, ms[..|ms| - 1]), ms[|ms| - 1])
  }

  lemma FoldSnoc(s: seq<byte>, ms: seq<Mutation>, m: Mutation)
    ensures Fold(s, ms + [m]) == Apply(Fold(s, ms), m)
  {
    assert (ms + [m])[..|ms|] == ms;
  }

  lemma {:induction false} LastOfConcat<T>(a: seq<T>, b: seq<T>)
    requires b != []
    ensures (a + b)[..|a + b| - 1] == a + b[..|b| - 1] && (a + b)[|a + b| - 1] == b[|b| - 1]
  {
  }

  lemma {:induction false} FoldConcat(s: seq<byte>, a: seq<Mutation>, b: seq<Mutation>)
    ensures Fold(s, a + b) == Fold(Fold(s, a), b)
    decreases |b|
  {
    if b == [] {
      assert a + b == a;
    } else {
      var last := |b| - 1;
      FoldConcat(s, a, b[..last]);
      LastOfConcat(a, b);
      assert Fold(s, a + b) == Apply(Fold(s, a + b[..last]), b[last]);
    }
  }

  // ----- an independent meaning: which request a byte comes from -----

  /** Where a byte of the file comes from: the file as it was, request number `k`, or nowhere
      (a truncation cut the position off and no later request wrote it). */
  datatype Source = Original | Written(k: nat) | Cleared

  function SourceOf(ms: seq<Mutation>, i: nat): (src: Source)
    ensures src.Written? ==> src.k < |ms| && ms[src.k].Covers(i)
  {
    if ms == [] then Original
    else
      var last := ms[|ms| - 1];
      if last.Covers(i) then Written(|ms| - 1)
      else if last.SetLength? && last.size <= i then Cleared
      else SourceOf(ms[..|ms| - 1], i)
  }

  /** Every byte of the folded file is what the last request that touched it says, and zero where none did. */
  lemma {:induction false} ByteProvenance(s: seq<byte>, ms: seq<Mutation>, i: nat)
    requires i < |Fold(s, ms)|
    ensures Fold(s, ms)[i] ==
            match SourceOf(ms, i)
            case Original => if i < |s| then s[i] else 0
            case Written(k) => ms[k].ByteFor(i)
            case Cleared => 0
    decreases |ms|
  {
    if ms != [] {
      var last, before := ms[|ms| - 1], ms[..|ms| - 1];
      if i < |Fold(s, before)| {
        ByteProvenance(s, before, i);
      } else if !last.Covers(i) {
        BeyondTheEnd(s, before, i);
      }
    }
  }

  /** A position past the end of the folded file was never written since it was last cut off. */
  lemma {:induction false} BeyondTheEnd(s: seq<byte>, ms: seq<Mutation>, i: nat)
    requires |Fold(s, ms)| <= i
    ensures !SourceOf(ms, i).Written?
    ensures SourceOf(ms, i).Original? ==> |s| <= i
    decreases |ms|
  {
    if ms != [] {
      var last, before := ms[|ms| - 1], ms[..|ms| - 1];
      if last.Write? || i < last.size {
        BeyondTheEnd(s, before, i);
      }
    }
  }

  /** After a truncation to `n`, whatever follows, a byte at or past `n` is zero unless a later request wrote it,
      and the old content has no influence on it. */
  lemma NoResurrectedBytes(s: seq<byte>, n: nat, later: seq<Mutation>, i: nat)
    requires n <= i < |Fold(s, [SetLength(n)] + later)|
    ensures Fold(s, [SetLength(n)] + later)[i] ==
            if SourceOf(later, i).Written? then later[SourceOf(later, i).k].ByteFor(i) else 0
  {
    FoldConcat(s, [SetLength(n)], later);
    FoldSnoc(s, [], SetLength(n));
    assert [] + [SetLength(n)] == [SetLength(n)];
    ByteProvenance(Resize(s, n), later, i);
  }

  // ----- requests that may arrive in any order -----

  ghost predicate AllWrites(ws: seq<Mutation>) {
    forall w | w in ws :: w.Write?
  }

  ghost predicate Agree(a: Mutation, b: Mutation) {
    forall i: nat | a.Covers(i) && b.Covers(i) :: a.ByteFor(i) == b.ByteFor(i)
  }

  /** Wherever two of the writes overlap they write the same byte; disjoint writes are the usual case. */
  ghost predicate Compatible(ws: seq<Mutation>) {
    forall a, b | a in ws && b in ws :: Agree(a, b)
  }

  /** Every order of the same writes gives the same file, whatever the file was before. */
  ghost predicate OrderIrrelevant(ws: seq<Mutation>) {
    forall p: seq<Mutation>, s: seq<byte> {:trigger Fold(s, p)} ::
      multiset(p) == multiset(ws) ==> Fold(s, p) == Fold(s, ws)
  }

  lemma {:induction false} WritesOnlyGrow(s: seq<byte>, ws: seq<Mutation>)
    requires AllWrites(ws)
    ensures |s| <= |Fold(s, ws)|
    ensures forall w | w in ws :: w.off + |w.data| <= |Fold(s, ws)|
    ensures |Fold(s, ws)| == |s| || exists w :: w in ws && w.off + |w.data| == |Fold(s, ws)|
    decreases |ws|
  {
    if ws != [] {
      var last, before := ws[|ws| - 1], ws[..|ws| - 1];
      assert ws == before + [last];
      assert forall w :: w in ws <==> w in before || w == last;
      WritesOnlyGrow(s, before);
    }
  }

  lemma {:induction false} WritesNeverClear(ws: seq<Mutation>, i: nat)
    requires AllWrites(ws)
    ensures !SourceOf(ws, i).Cleared?
    ensures SourceOf(ws, i).Original? <==> forall w | w in ws :: !w.Covers(i)
    decreases |ws|
  {
    if ws != [] {
      var last, before := ws[|ws| - 1], ws[..|ws| - 1];
      assert ws == before + [last];
      assert forall w :: w in ws <==> w in before || w == last;
      WritesNeverClear(before, i);
      assert SourceOf(ws, i) == if last.Covers(i) then Written(|ws| - 1) else SourceOf(before, i);
    }
  }

  lemma SameElements(p: seq<Mutation>, ws: seq<Mutation>)
    requires multiset(p) == multiset(ws)
    ensures forall w :: w in p <==> w in ws
  {
    forall w ensures w in p <==> w in ws {
      assert w in p <==> w in multiset(p);
      assert w in ws <==> w in multiset(ws);
    }
  }

  lemma SameFile(s: seq<byte>, p: seq<Mutation>, ws: seq<Mutation>)
    requires AllWrites(ws) && Compatible(ws)
    requires forall w :: w in p <==> w in ws
    ensures Fold(s, p) == Fold(s, ws)
  {
    WritesOnlyGrow(s, p);
    WritesOnlyGrow(s, ws);
    assert |Fold(s, p)| == |Fold(s, ws)|;
    forall i: nat | i < |Fold(s, p)| ensures Fold(s, p)[i] == Fold(s, ws)[i] {
      ByteProvenance(s, p, i);
      ByteProvenance(s, ws, i);
      WritesNeverClear(p, i);
      WritesNeverClear(ws, i);
      if SourceOf(p, i).Written? {
        var a, b := p[SourceOf(p, i).k], ws[SourceOf(ws, i).k];
        assert a in ws && b in ws && Agree(a, b);
      }
    }
  }

  /** `ws` with its `k`-th request moved to the end. */
  function MoveLast(ws: seq<Mutation>, k: nat): seq<Mutation>
    requires k < |ws|
  {
    ws[..k] + ws[k + 1..] + [ws[k]]
  }

  lemma MoveLastKeepsAll(ws: seq<Mutation>, k: nat)
    requires k < |ws|
    ensures multiset(MoveLast(ws, k)) == multiset(ws)
  {
    assert ws == ws[..k] + [ws[k]] + ws[k + 1..];
  }

  lemma LastWriteWins(s: seq<byte>, ws: seq<Mutation>, k: nat, i: nat)
    requires AllWrites(ws) && k < |ws| && ws[k].Covers(i)
    ensures i < |Fold(s, MoveLast(ws, k))| && Fold(s, MoveLast(ws, k))[i] == ws[k].ByteFor(i)
  {
    FoldSnoc(s, ws[..k] + ws[k + 1..], ws[k]);
  }

  /** Reordering freedom, exactly: the order of a set of writes is irrelevant if and only if they agree on overlaps. */
  lemma ReorderingFreedom(ws: seq<Mutation>)
    requires AllWrites(ws)
    ensures OrderIrrelevant(ws) <==> Compatible(ws)
  {
    if Compatible(ws) {
      forall p: seq<Mutation>, s: seq<byte> | multiset(p) == multiset(ws) ensures Fold(s, p) == Fold(s, ws) {
        SameElements(p, ws);
        SameFile(s, p, ws);
      }
    }
    if OrderIrrelevant(ws) {
      forall a, b | a in ws && b in ws ensures Agree(a, b) {
        forall i: nat | a.Covers(i) && b.Covers(i) ensures a.ByteFor(i) == b.ByteFor(i) {
          var j :| 0 <= j < |ws| && ws[j] == a;
          var k :| 0 <= k < |ws| && ws[k] == b;
          MoveLastKeepsAll(ws, j);
          MoveLastKeepsAll(ws, k);
          LastWriteWins([], ws, j, i);
          LastWriteWins([], ws, k, i);
        }
      }
    }
  }

  ghost predicate Covered(ws: seq<Mutation>, i: nat) {
    exists w :: w in ws && w.Covers(i)
  }

  /** Writes that each carry a piece of `data`, and that together carry all of it. */
  ghost predicate Chunks(data: seq<byte>, ws: seq<Mutation>) {
    && AllWrites(ws)
    && (forall w | w in ws :: w.off + |w.data| <= |data| && w.data == data[w.off..w.off + |w.data|])
    && (forall i: nat | i < |data| :: Covered(ws, i))
  }

  lemma {:induction false} ChunkByte(before: seq<byte>, data: seq<byte>, ws: seq<Mutation>, i: nat)
    requires Chunks(data, ws) && i < |Fold(before, ws)|
    ensures i < |data| ==> Fold(before, ws)[i] == data[i]
    ensures |data| <= i ==> i < |before| && Fold(before, ws)[i] == before[i]
  {
    ByteProvenance(before, ws, i);
    WritesNeverClear(ws, i);
    WritesOnlyGrow(before, ws);
    if SourceOf(ws, i).Written? {
      assert ws[SourceOf(ws, i).k] in ws;
    } else {
      assert !Covered(ws, i);
    }
  }

  /** The chunks of an upload, in any order, put `data` over the front of the old content and keep the rest of it. */
  lemma {:induction false} ChunksAssemble(before: seq<byte>, data: seq<byte>, ws: seq<Mutation>)
    requires Chunks(data, ws)
    ensures Fold(before, ws) == data + if |data| < |before| then before[|data|..] else []
  {
    var f := Fold(before, ws);
    WritesOnlyGrow(before, ws);
    if |data| > 0 {
      assert Covered(ws, |data| - 1);
    }
    forall i: nat | i < |f| ensures i < |data| ==> f[i] == data[i]
                            ensures |data| <= i ==> i < |before| && f[i] == before[i] {
      ChunkByte(before, data, ws, i);
    }
  }

  // ----- how long the file is -----

  /** How many requests there are up to the last truncation, with it. */
  function CutAt(ms: seq<Mutation>): (k: nat)
    ensures k <= |ms| && (0 < k ==> ms[k - 1].SetLength?) && forall i | k <= i < |ms| :: ms[i].Write?
  {
    if ms == [] then 0 else if ms[|ms| - 1].SetLength? then |ms| else CutAt(ms[..|ms| - 1])
  }

  /** What the last truncation set the length to; without one, the length before all requests. */
  function LengthAtCut(before: nat, ms: seq<Mutation>): nat {
    if CutAt(ms) == 0 then before else ms[CutAt(ms) - 1].size
  }

  /** The length of the file, for any requests: the length at the last cut, or the end of a later write, whichever is
      furthest. */
  lemma {:induction false} FileLength(s: seq<byte>, ms: seq<Mutation>)
    ensures LengthAtCut(|s|, ms) <= |Fold(s, ms)|
    ensures forall w | w in ms[CutAt(ms)..] :: w.Write? && w.off + |w.data| <= |Fold(s, ms)|
    ensures |Fold(s, ms)| == LengthAtCut(|s|, ms)
            || exists w :: w in ms[CutAt(ms)..] && w.Write? && w.off + |w.data| == |Fold(s, ms)|
  {
    var k := CutAt(ms);
    var f, later := Fold(s, ms[..k]), ms[k..];
    assert |f| == LengthAtCut(|s|, ms) by { FileAtCut(s, ms); }
    assert Fold(s, ms) == Fold(f, later) by {
      assert ms[..k] + later == ms;
      FoldConcat(s, ms[..k], later);
    }
    WritesOnlyGrow(f, later);
  }

  lemma {:induction false} FileAtCut(s: seq<byte>, ms: seq<Mutation>)
    ensures |Fold(s, ms[..CutAt(ms)])| == LengthAtCut(|s|, ms)
  {
    var k := CutAt(ms);
    if k == 0 {
      assert ms[..k] == [];
    } else {
      assert ms[..k] == ms[..k - 1] + [ms[k - 1]];
      LengthAfterCut(s, ms[..k - 1], ms[k - 1].size);
    }
  }

  /** A truncation to `n` leaves exactly `n` bytes. */
  lemma LengthAfterCut(s: seq<byte>, ms: seq<Mutation>, n: nat)
    ensures |Fold(s, ms + [SetLength(n)])| == n
  {
    FoldSnoc(s, ms, SetLength(n));
  }
}
