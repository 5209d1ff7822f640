/** Order-preserving selection from a sequence. */
module Sequences {
  /** `xs` arises from `ys` by leaving elements out. */
  ghost predicate IsSubseq<T>(xs: seq<T>, ys: seq<T>) {
    xs == [] ||
    (ys != [] &&
     ((xs[|xs| - 1] == ys[|ys| - 1] && IsSubseq(xs[..|xs| - 1], ys[..|ys| - 1]))
      || IsSubseq(xs, ys[..|ys| - 1])))
  }

  lemma SubseqSnoc<T>(xs: seq<T>, ys: seq<T>, y: T)
    requires IsSubseq(xs, ys)
    ensures IsSubseq(xs, ys + [y]) && IsSubseq(xs + [y], ys + [y])
  {
  }

  lemma {:induction false} SubseqInit<T>(xs: seq<T>, ys: seq<T>)
    requires xs != [] && IsSubseq(xs, ys)
    ensures IsSubseq(xs[..|xs| - 1], ys)
  {
    var init, ylast := ys[..|ys| - 1], ys[|ys| - 1];
    if IsSubseq(xs, init) {
      SubseqInit(xs, init);
    }
    SubseqSnoc(xs[..|xs| - 1], init, ylast);
    assert ys == init + [ylast];
  }

  /** The elements marked true. */
  function Picked<T>(xs: seq<T>, ok: seq<bool>): seq<T>
    requires |ok| == |xs|
  {
    if xs == [] then []
    else Picked(xs[..|xs| - 1], ok[..|ok| - 1]) + (if ok[|ok| - 1] then [xs[|xs| - 1]] else [])
  }

  /** How many marks are false. */
  function Misses(ok: seq<bool>): nat {
    if ok == [] then 0 else Misses(ok[..|ok| - 1]) + (if ok[|ok| - 1] then 0 else 1)
  }

  lemma MissesSnoc(ok: seq<bool>, b: bool)
    ensures Misses(ok + [b]) == Misses(ok) + (if b then 0 else 1)
  {
    assert (ok + [b])[..|ok|] == ok;
  }

  lemma {:induction false} PickedIsSubseq<T>(xs: seq<T>, ok: seq<bool>)
    requires |ok| == |xs|
    ensures IsSubseq(Picked(xs, ok), xs) && |xs| == |Picked(xs, ok)| + Misses(ok)
  {
    if xs != [] {
      var init, last, marks := xs[..|xs| - 1], xs[|xs| - 1], ok[..|ok| - 1];
      var picked := Picked(init, marks);
      PickedIsSubseq(init, marks);
      SubseqSnoc(picked, init, last);
      assert xs == init + [last];
      assert Picked(xs, ok) == if ok[|ok| - 1] then picked + [last] else picked;
    }
  }

  lemma {:induction false} SubseqTransitive<T>(xs: seq<T>, ys: seq<T>, zs: seq<T>)
    requires IsSubseq(xs, ys) && IsSubseq(ys, zs)
    ensures IsSubseq(xs, zs)
    decreases |xs| + |ys| + |zs|
  {
    if xs != [] {
      var init, ys' := zs[..|zs| - 1], ys[..|ys| - 1];
      if IsSubseq(ys, init) {
        SubseqTransitive(xs, ys, init);
      } else if IsSubseq(xs, ys') {
        SubseqTransitive(xs, ys', init);
      } else {
        SubseqTransitive(xs[..|xs| - 1], ys', init);
      }
    }
  }

  lemma {:induction false} SubseqPrefixes<T>(xs: seq<T>, xs': seq<T>, ys: seq<T>, ys': seq<T>)
    requires IsSubseq(xs, ys) && xs' <= xs && ys <= ys'
    ensures IsSubseq(xs', ys')
    decreases |xs| + |ys'| - |ys|
  {
    if |xs'| < |xs| {
      SubseqInit(xs, ys);
      SubseqPrefixes(xs[..|xs| - 1], xs', ys, ys');
    } else if |ys| < |ys'| {
      var y := ys'[|ys|];
      SubseqSnoc(xs, ys, y);
      assert ys + [y] == ys'[..|ys| + 1];
      SubseqPrefixes(xs, xs', ys + [y], ys');
    } else {
      assert xs == xs' && ys == ys';
    }
  }
}
