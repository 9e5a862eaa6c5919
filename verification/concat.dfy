/** Concatenation of per-element lists: how each mesher turns the faces
    it draws, in order, into its flat attribute lists. */
module Concat {

  /** (a + b) + c == a + (b + c); stated once so that long proofs can
      re-associate appends without searching for it. */
  lemma AppendAssoc<T>(a: seq<T>, b: seq<T>, c: seq<T>)
    ensures (a + b) + c == a + (b + c)
  {
  }

  /** The concatenation of part(f) over the elements f of fs, in order. */
  function Flatten<F, T>(fs: seq<F>, part: F -> seq<T>): seq<T>
  {
    if fs == [] then []
    else Flatten(fs[..|fs| - 1], part) + part(fs[|fs| - 1])
  }

  lemma {:induction false} FlattenLength<F, T>(fs: seq<F>, part: F -> seq<T>)
    requires forall f :: |part(f)| == 6
    ensures |Flatten(fs, part)| == 6 * |fs|
  {
    if fs != [] {
      FlattenLength(fs[..|fs| - 1], part);
    }
  }

  lemma {:induction false} FlattenAppend<F, T>(a: seq<F>, b: seq<F>, part: F -> seq<T>)
    ensures Flatten(a + b, part) == Flatten(a, part) + Flatten(b, part)
    decreases |b|
  {
    if b != [] {
      var b', last := b[..|b| - 1], b[|b| - 1];
      assert (a + b)[..|a + b| - 1] == a + b';
      assert (a + b)[|a + b| - 1] == last;
      FlattenAppend(a, b', part);
      AppendAssoc(Flatten(a, part), Flatten(b', part), part(last));
    } else {
      assert a + b == a;
    }
  }
}
