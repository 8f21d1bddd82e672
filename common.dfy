/** Small generic vocabulary shared by the ingestion, cleaning and dashboard models:
    an Option type, integer minimum, page concatenation and row selection. */
module Common {

  datatype Option<+T> = None | Some(value: T)

  function Min(a: int, b: int): (m: int)
    ensures m <= a && m <= b
    ensures m == a || m == b
  {
    if a <= b then a else b
  }

  /** Moving the first element of the part still to come onto the part already done. */
  lemma MoveFirst<T>(done: seq<T>, rest: seq<T>, whole: seq<T>, x: T, next: seq<T>)
    requires done + rest == whole && rest == [x] + next
    ensures (done + [x]) + next == whole
  {
    assert done + ([x] + next) == (done + [x]) + next;
  }

  /** The pages of a download joined end to end, first page first. */
  function Concat<T>(pages: seq<seq<T>>): seq<T>
  {
    if pages == [] then [] else pages[0] + Concat(pages[1..])
  }

  lemma ConcatCons<T>(page: seq<T>, pages: seq<seq<T>>)
    ensures Concat([page] + pages) == page + Concat(pages)
  {
    assert ([page] + pages)[1..] == pages;
  }

  /** Applies `f` to every element and keeps the results it produces, in order:
      the shape of a pandas row filter followed by a column conversion. */
  function FilterMap<A, B>(f: A -> Option<B>, s: seq<A>): seq<B>
  {
    if s == [] then []
    else match f(s[0])
      case Some(b) => [b] + FilterMap(f, s[1..])
      case None => FilterMap(f, s[1..])
  }

  /** A row filter never lengthens its input. */
  lemma {:induction false} FilterMapShorter<A, B>(f: A -> Option<B>, s: seq<A>)
    ensures |FilterMap(f, s)| <= |s|
  {
    if s != [] {
      FilterMapShorter(f, s[1..]);
    }
  }

  /** Every position moved one place on. */
  function Shift(idx: seq<nat>): (r: seq<nat>)
    ensures |r| == |idx|
    ensures forall k :: 0 <= k < |r| ==> r[k] == idx[k] + 1
  {
    if idx == [] then [] else [idx[0] + 1] + Shift(idx[1..])
  }

  /** The positions in `s` on which `f` succeeds, in increasing order. */
  function SomeIndices<A, B>(f: A -> Option<B>, s: seq<A>): seq<nat>
  {
    if s == [] then []
    else if f(s[0]).Some? then [0] + Shift(SomeIndices(f, s[1..]))
    else Shift(SomeIndices(f, s[1..]))
  }

  /** `r` lists, in input order, the result of `f` on exactly those elements of `s`
      on which `f` succeeds; `idx` says which input row each output row came from. */
  ghost predicate Selection<A, B>(f: A -> Option<B>, s: seq<A>, r: seq<B>, idx: seq<nat>)
  {
    |idx| == |r| && Sources(f, s, r, idx) && Increasing(idx) && Covers(f, s, idx)
  }

  ghost predicate Sources<A, B>(f: A -> Option<B>, s: seq<A>, r: seq<B>, idx: seq<nat>)
    requires |idx| == |r|
  {
    forall k :: 0 <= k < |idx| ==> idx[k] < |s| && f(s[idx[k]]) == Some(r[k])
  }

  predicate Increasing(idx: seq<nat>)
  {
    forall k, l :: 0 <= k < l < |idx| ==> idx[k] < idx[l]
  }

  ghost predicate Covers<A, B>(f: A -> Option<B>, s: seq<A>, idx: seq<nat>)
  {
    forall i :: 0 <= i < |s| && f(s[i]).Some? ==> i in idx
  }

  /** FilterMap drops and converts rows but never reorders, duplicates or invents them. */
  lemma {:induction false} FilterMapSelects<A, B>(f: A -> Option<B>, s: seq<A>)
    ensures Selection(f, s, FilterMap(f, s), SomeIndices(f, s))
  {
    if s != [] {
      var tail, rest := FilterMap(f, s[1..]), SomeIndices(f, s[1..]);
      FilterMapSelects(f, s[1..]);
      var d := if f(s[0]).Some? then [0] else [];
      var r := if f(s[0]).Some? then [f(s[0]).value] + tail else tail;
      assert FilterMap(f, s) == r;
      assert SomeIndices(f, s) == d + Shift(rest);
      StepSources(f, s, tail, rest);
      StepIncreasing(d, rest);
      StepCovers(f, s, rest);
    }
  }

  lemma StepSources<A, B>(f: A -> Option<B>, s: seq<A>, tail: seq<B>, rest: seq<nat>)
    requires s != [] && |rest| == |tail| && Sources(f, s[1..], tail, rest)
    ensures f(s[0]).Some? ==> Sources(f, s, [f(s[0]).value] + tail, [0] + Shift(rest))
    ensures f(s[0]).None? ==> Sources(f, s, tail, Shift(rest))
  {
    var shifted := Shift(rest);
    forall k | 0 <= k < |shifted|
      ensures shifted[k] < |s| && f(s[shifted[k]]) == Some(tail[k])
    {
      assert s[shifted[k]] == s[1..][rest[k]];
    }
    if f(s[0]).Some? {
      var r, idx := [f(s[0]).value] + tail, [0] + shifted;
      forall k | 0 <= k < |idx|
        ensures idx[k] < |s| && f(s[idx[k]]) == Some(r[k])
      {
        if k > 0 {
          assert idx[k] == shifted[k - 1] && r[k] == tail[k - 1];
        }
      }
    }
  }

  lemma ShiftIncreasing(rest: seq<nat>)
    requires Increasing(rest)
    ensures Increasing(Shift(rest))
  {
    var sh := Shift(rest);
    forall k, l | 0 <= k < l < |sh|
      ensures sh[k] < sh[l]
    {
      assert sh[k] == rest[k] + 1 && sh[l] == rest[l] + 1;
    }
  }

  lemma StepIncreasing(d: seq<nat>, rest: seq<nat>)
    requires d == [] || d == [0]
    requires Increasing(rest)
    ensures Increasing(d + Shift(rest))
  {
    var sh := Shift(rest);
    ShiftIncreasing(rest);
    if d == [] {
      assert d + sh == sh;
    } else {
      var idx := [0] + sh;
      forall k, l | 0 <= k < l < |idx|
        ensures idx[k] < idx[l]
      {
        assert idx[l] == sh[l - 1] && 0 < sh[l - 1];
        if 0 < k {
          assert idx[k] == sh[k - 1];
        }
      }
    }
  }

  lemma StepCovers<A, B>(f: A -> Option<B>, s: seq<A>, rest: seq<nat>)
    requires s != [] && Covers(f, s[1..], rest)
    ensures Covers(f, s, (if f(s[0]).Some? then [0] else []) + Shift(rest))
  {
    var d: seq<nat> := if f(s[0]).Some? then [0] else [];
    var idx := d + Shift(rest);
    forall i | 0 <= i < |s| && f(s[i]).Some?
      ensures i in idx
    {
      if i == 0 {
        assert idx[0] == 0;
      } else {
        assert s[i] == s[1..][i - 1];
        assert i - 1 in rest;
        var k :| 0 <= k < |rest| && rest[k] == i - 1;
        assert idx[k + |d|] == i;
      }
    }
  }

  /** A column conversion applied to every row. */
  function Map<A, B>(f: A -> B, s: seq<A>): (r: seq<B>)
    ensures |r| == |s|
    ensures forall i :: 0 <= i < |s| ==> r[i] == f(s[i])
  {
    if s == [] then [] else [f(s[0])] + Map(f, s[1..])
  }

  /** Two partial row conversions one after the other. */
  function AndThen<A, B, C>(f: A -> Option<B>, g: B -> Option<C>): A -> Option<C>
  {
    x => match f(x) case None => None case Some(y) => g(y)
  }

  /** A partial row conversion followed by a total one. */
  function ThenMap<A, B, C>(f: A -> Option<B>, h: B -> C): A -> Option<C>
  {
    x => match f(x) case None => None case Some(y) => Some(h(y))
  }

  /** Two row filters in sequence are one filter with the composed test. */
  lemma {:induction false} FilterMapAndThen<A, B, C>(f: A -> Option<B>, g: B -> Option<C>, s: seq<A>)
    ensures FilterMap(g, FilterMap(f, s)) == FilterMap(AndThen(f, g), s)
  {
    if s != [] {
      FilterMapAndThen(f, g, s[1..]);
      if f(s[0]).Some? {
        var y := f(s[0]).value;
        assert FilterMap(f, s) == [y] + FilterMap(f, s[1..]);
        assert ([y] + FilterMap(f, s[1..]))[1..] == FilterMap(f, s[1..]);
      }
    }
  }

  /** A conversion of the surviving rows can be folded into the filter. */
  lemma {:induction false} MapAfterFilterMap<A, B, C>(f: A -> Option<B>, h: B -> C, s: seq<A>)
    ensures Map(h, FilterMap(f, s)) == FilterMap(ThenMap(f, h), s)
  {
    if s != [] {
      MapAfterFilterMap(f, h, s[1..]);
      if f(s[0]).Some? {
        var y := f(s[0]).value;
        assert FilterMap(f, s) == [y] + FilterMap(f, s[1..]);
        assert ([y] + FilterMap(f, s[1..]))[1..] == FilterMap(f, s[1..]);
      }
    }
  }

  function KeepIf<T>(keep: T -> bool): T -> Option<T>
  {
    x => if keep(x) then Some(x) else None
  }

  /** The elements of `s` that satisfy `keep`, in order: a boolean mask. */
  function Filter<T>(keep: T -> bool, s: seq<T>): seq<T>
  {
    FilterMap(KeepIf(keep), s)
  }

  /** `r` is an order-preserving subsequence of `s` holding exactly the elements
      that satisfy `keep`, as witnessed by the positions `idx`. */
  ghost predicate MaskSelection<T>(keep: T -> bool, s: seq<T>, r: seq<T>, idx: seq<nat>)
  {
    && |idx| == |r|
    && (forall k :: 0 <= k < |idx| ==> idx[k] < |s| && r[k] == s[idx[k]] && keep(r[k]))
    && (forall k, l :: 0 <= k < l < |idx| ==> idx[k] < idx[l])
    && (forall i :: 0 <= i < |s| && keep(s[i]) ==> i in idx)
  }

  lemma FilterSelects<T>(keep: T -> bool, s: seq<T>)
    ensures MaskSelection(keep, s, Filter(keep, s), SomeIndices(KeepIf(keep), s))
  {
    FilterMapSelects(KeepIf(keep), s);
  }

  lemma FilterMembership<T>(keep: T -> bool, s: seq<T>, x: T)
    ensures x in Filter(keep, s) <==> x in s && keep(x)
  {
    var r, idx := Filter(keep, s), SomeIndices(KeepIf(keep), s);
    FilterSelects(keep, s);
    if x in r {
      var k :| 0 <= k < |r| && r[k] == x;
      assert s[idx[k]] == x;
    }
    if x in s && keep(x) {
      var i :| 0 <= i < |s| && s[i] == x;
      var k :| 0 <= k < |idx| && idx[k] == i;
      assert r[k] == x;
    }
  }
}
