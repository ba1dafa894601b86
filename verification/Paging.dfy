/** Reading a sequence page by page: the contract that both `ReadAt` and `ListAt` offer their callers,
    and what a caller obtains who follows it to the end. */
module Paging {

  /** The part of `s` from `off` on, at most `n` elements; empty past the end. */
  function Slice<T>(s: seq<T>, off: nat, n: nat): (r: seq<T>)
    ensures |r| <= n
    ensures off <= |s| ==> off + |r| <= |s| && r == s[off..off + |r|]
    ensures |r| < n ==> |s| <= off + |r|
  {
    if |s| <= off then [] else if off + n <= |s| then s[off..off + n] else s[off..]
  }

  datatype Page<T> = Page(items: seq<T>, eof: bool)

  /** In any state in `ok`, `pager` answers a request for `n` elements at `off` with that slice of `s` and comes to
      another such state; it reports the end only at the end, and always when the page is short. */
  ghost predicate Serves<S(!new), T(!new)>(pager: (S, nat, nat) -> (S, Page<T>), ok: S -> bool, s: seq<T>) {
    forall st: S, off: nat, n: nat | ok(st) && off <= |s| && 0 < n ::
      var (st', page) := pager(st, off, n);
      && ok(st') && page.items == Slice(s, off, n)
      && (page.eof ==> off + |page.items| == |s|)
      && (|page.items| < n ==> page.eof)
  }

  /** What a caller collects who asks for pages at the offset reached so far until told of the end, each time in the
      state that the request before left; the `k`-th request has room for `sizes(k)` elements. Well defined, so the
      loop terminates. */
  ghost function Drain<S(!new), T(!new)>(pager: (S, nat, nat) -> (S, Page<T>), ok: S -> bool, s: seq<T>, st: S,
                                         off: nat, sizes: nat -> nat, k: nat): seq<T>
    requires Serves(pager, ok, s) && ok(st) && off <= |s|
    requires forall j: nat :: 0 < sizes(j)
    decreases |s| - off
  {
    var (st', page) := pager(st, off, sizes(k));
    if page.eof then page.items
    else page.items + Drain(pager, ok, s, st', off + |page.items|, sizes, k + 1)
  }

  /** Paging is complete: every element once, in order, for all positive page sizes. */
  lemma {:induction false} DrainYieldsAll<S(!new), T(!new)>(pager: (S, nat, nat) -> (S, Page<T>), ok: S -> bool,
                                            s: seq<T>, st: S, off: nat, sizes: nat -> nat, k: nat)
    requires Serves(pager, ok, s) && ok(st) && off <= |s|
    requires forall j: nat :: 0 < sizes(j)
    ensures Drain(pager, ok, s, st, off, sizes, k) == s[off..]
    decreases |s| - off
  {
    var (st', page) := pager(st, off, sizes(k));
    var next := off + |page.items|;
    assert page.items == s[off..next];
    assert s[off..] == s[off..next] + s[next..];
    if !page.eof {
      DrainYieldsAll(pager, ok, s, st', next, sizes, k + 1);
    }
  }
}
