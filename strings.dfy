/**
 * Sequence and string helpers shared by the transcript serialiser:
 * order-preserving concatenation over a sequence (the shape of an
 * accumulating `+=` loop), Python's `sep.join(parts)`, and Python's
 * `s.split(c)` for a one-character separator, which serves as the
 * reference decoder for the round-trip lemmas.
 */
module Strings {

  /** The concatenation of `f(x)` for every `x` of `xs`, in order.
      Defined from the right end so that it grows one piece at a time,
      as an accumulator does. */
  function FlatMap<T, U>(xs: seq<T>, f: T -> seq<U>): seq<U>
    decreases |xs|
  {
    if |xs| == 0 then [] else FlatMap(xs[..|xs| - 1], f) + f(xs[|xs| - 1])
  }

  /** Concatenating over two sequences adds nothing between them. */
  lemma {:induction false} FlatMapAppend<T, U>(xs: seq<T>, ys: seq<T>, f: T -> seq<U>)
    ensures FlatMap(xs + ys, f) == FlatMap(xs, f) + FlatMap(ys, f)
    decreases |ys|
  {
    if |ys| == 0 {
      assert xs + ys == xs;
    } else {
      var zs := xs + ys;
      assert zs[..|zs| - 1] == xs + ys[..|ys| - 1];
      assert zs[|zs| - 1] == ys[|ys| - 1];
      FlatMapAppend(xs, ys[..|ys| - 1], f);
    }
  }

  /** Extending a prefix by one element appends that element's piece. */
  lemma FlatMapStep<T, U>(xs: seq<T>, i: nat, f: T -> seq<U>)
    requires i < |xs|
    ensures FlatMap(xs[..i + 1], f) == FlatMap(xs[..i], f) + f(xs[i])
  {
    assert xs[..i + 1][..i] == xs[..i];
  }

  /** An accumulator holding `base` and the pieces of a prefix of `xs`, once
      extended by the next element's piece, holds the pieces of the prefix
      one longer. */
  lemma AccumulateStep<T, U>(acc: seq<U>, base: seq<U>, xs: seq<T>, i: nat, f: T -> seq<U>)
    requires i < |xs|
    requires acc == base + FlatMap(xs[..i], f)
    ensures acc + f(xs[i]) == base + FlatMap(xs[..i + 1], f)
  {
    FlatMapStep(xs, i, f);
  }

  /** A single element contributes exactly its own piece. */
  lemma FlatMapSingleton<T, U>(x: T, f: T -> seq<U>)
    ensures FlatMap([x], f) == f(x)
  {
  }

  /** Peeling the first element off the front. */
  lemma FlatMapCons<T, U>(x: T, xs: seq<T>, f: T -> seq<U>)
    ensures FlatMap([x] + xs, f) == f(x) + FlatMap(xs, f)
  {
    FlatMapAppend([x], xs, f);
    FlatMapSingleton(x, f);
  }

  /** Flattening in two stages equals flattening each element's pieces
      directly: the inner grouping leaves no trace. */
  lemma {:induction false} FlatMapNested<T, U, V>(xs: seq<T>, g: T -> seq<U>, f: U -> seq<V>, h: T -> seq<V>)
    requires forall i | 0 <= i < |xs| :: h(xs[i]) == FlatMap(g(xs[i]), f)
    ensures FlatMap(FlatMap(xs, g), f) == FlatMap(xs, h)
    decreases |xs|
  {
    if |xs| > 0 {
      var init, last := xs[..|xs| - 1], xs[|xs| - 1];
      FlatMapNested(init, g, f, h);
      FlatMapAppend(FlatMap(init, g), g(last), f);
    }
  }

  /** The summed lengths of the parts. */
  function TotalLength(parts: seq<string>): nat
    decreases |parts|
  {
    if |parts| == 0 then 0 else |parts[0]| + TotalLength(parts[1..])
  }

  /** The length taken by the separators between `n` parts, `w` each. */
  function GapLength(n: nat, w: nat): nat
    decreases n
  {
    if n <= 1 then 0 else w + GapLength(n - 1, w)
  }

  /** One-character separators take one position per gap. */
  lemma {:induction false} GapLengthUnit(n: nat)
    ensures n >= 1 ==> GapLength(n, 1) == n - 1
    decreases n
  {
    if n > 1 {
      GapLengthUnit(n - 1);
    }
  }

  /** Python's `sep.join(parts)`: no parts give the empty string, and
      otherwise the parts appear with exactly one separator between each
      neighbouring pair and none elsewhere, so the length is the parts'
      lengths plus one separator per gap. */
  function Join(parts: seq<string>, sep: string): (r: string)
    ensures |parts| == 0 ==> r == ""
    ensures |parts| >= 1 ==> |r| == TotalLength(parts) + GapLength(|parts|, |sep|)
    decreases |parts|
  {
    if |parts| == 0 then ""
    else if |parts| == 1 then parts[0]
    else parts[0] + sep + Join(parts[1..], sep)
  }

  /** A joined string begins with the first part and ends with the last, so
      the separator never appears at either end. */
  lemma {:induction false} JoinEnds(parts: seq<string>, sep: string)
    requires |parts| >= 1
    ensures parts[0] <= Join(parts, sep)
    ensures |parts[|parts| - 1]| <= |Join(parts, sep)|
    ensures Join(parts, sep)[|Join(parts, sep)| - |parts[|parts| - 1]|..] == parts[|parts| - 1]
    decreases |parts|
  {
    if |parts| > 1 {
      JoinEnds(parts[1..], sep);
      var rest := Join(parts[1..], sep);
      var s := parts[0] + sep + rest;
      assert s[|s| - |rest|..] == rest;
    }
  }

  /** A character outside every part and the separator is outside the result. */
  lemma {:induction false} JoinAvoids(parts: seq<string>, sep: string, c: char)
    requires c !in sep
    requires forall i | 0 <= i < |parts| :: c !in parts[i]
    ensures c !in Join(parts, sep)
    decreases |parts|
  {
    if |parts| > 1 {
      JoinAvoids(parts[1..], sep, c);
    }
  }

  /** Python's `s.split(c)` for a one-character separator: the maximal runs
      between occurrences of `c`, always at least one (possibly empty). */
  function Split(s: string, c: char): (r: seq<string>)
    ensures |r| >= 1
    decreases |s|
  {
    if |s| == 0 then [""]
    else
      var rest := Split(s[1..], c);
      if s[0] == c then [""] + rest else [[s[0]] + rest[0]] + rest[1..]
  }

  /** A prefix free of the separator is glued onto the first field. */
  lemma {:induction false} SplitFree(a: string, b: string, c: char)
    requires c !in a
    ensures Split(a + b, c) == [a + Split(b, c)[0]] + Split(b, c)[1..]
    decreases |a|
  {
    if |a| == 0 {
      assert a + b == b;
      assert a + Split(b, c)[0] == Split(b, c)[0];
      assert Split(b, c) == [Split(b, c)[0]] + Split(b, c)[1..];
    } else {
      assert (a + b)[0] == a[0];
      assert (a + b)[1..] == a[1..] + b;
      SplitFree(a[1..], b, c);
      assert [a[0]] + (a[1..] + Split(b, c)[0]) == a + Split(b, c)[0];
    }
  }

  /** A separator-free field followed by the separator splits off as one field. */
  lemma SplitSep(a: string, b: string, c: char)
    requires c !in a
    ensures Split(a + [c] + b, c) == [a] + Split(b, c)
  {
    assert a + [c] + b == a + ([c] + b);
    assert ([c] + b)[1..] == b;
    SplitFree(a, [c] + b, c);
    assert a + "" == a;
  }

  /** Splitting undoes joining, when no part contains the separator. */
  lemma {:induction false} JoinSplit(parts: seq<string>, c: char)
    requires |parts| >= 1
    requires forall i | 0 <= i < |parts| :: c !in parts[i]
    ensures Split(Join(parts, [c]), c) == parts
    decreases |parts|
  {
    if |parts| == 1 {
      SplitFree(parts[0], "", c);
      assert parts[0] + "" == parts[0];
    } else {
      JoinSplit(parts[1..], c);
      SplitSep(parts[0], Join(parts[1..], [c]), c);
      assert parts == [parts[0]] + parts[1..];
    }
  }
}
