/**
 Wire formats as values: a parser, an encoding and the range of values that fit it.

 `Correct` says that the parser accepts exactly the encodings of fitting values. Every combinator
 keeps it, so the correctness of a composed format follows its composition.
 */
module Formats {
  import opened Bytes
  import opened Streams

  datatype Format<!T> = Format(
    parse: (Source, nat) -> Parsed<T>,
    encode: T -> seq<byte>,
    fits: T -> bool)

  /** Whatever the parser returns stands encoded between the two positions. */
  ghost predicate Sound<T>(f: Format<T>) {
    forall s: Source, p: nat :: p <= |s.data| && f.parse(s, p).Ok? ==>
      var r := f.parse(s, p);
      f.fits(r.value) && At(s, p, f.encode(r.value)) && r.next == p + |f.encode(r.value)|
  }

  /** Wherever the encoding of a fitting value stands, the parser returns that value. */
  ghost predicate Complete<T(!new)>(f: Format<T>) {
    forall s: Source, p: nat, x: T {:trigger At(s, p, f.encode(x))} :: f.fits(x) && At(s, p, f.encode(x)) ==>
      f.parse(s, p) == Ok(x, p + |f.encode(x)|)
  }

  ghost predicate Correct<T(!new)>(f: Format<T>) {
    Sound(f) && Complete(f)
  }

  // ----- Basic formats -----

  /** An unsigned number in `n` bytes, most significant byte first. */
  function Uint(n: nat): Format<nat> {
    Format((s: Source, p: nat) => ReadUint(s, p, n), (v: nat) => ToBE(v, n), (v: nat) => v < Pow256(n))
  }

  lemma UintCorrect(n: nat)
    ensures Correct(Uint(n))
  {
    forall s: Source, p: nat | ReadUint(s, p, n).Ok?
      ensures var r := ReadUint(s, p, n); r.value < Pow256(n) && At(s, p, ToBE(r.value, n)) && r.next == p + n
    {
      ReadUintGives(s, p, n);
    }
    forall s: Source, p: nat, v: nat | v < Pow256(n) && At(s, p, ToBE(v, n))
      ensures ReadUint(s, p, n) == Ok(v, p + n)
    {
      ReadUintFrom(s, p, n, v);
    }
  }

  /** A string of exactly `n` bytes. */
  function Raw(n: nat): Format<seq<byte>> {
    Format((s: Source, p: nat) => ReadBytes(s, p, n), (b: seq<byte>) => b, (b: seq<byte>) => |b| == n)
  }

  lemma RawCorrect(n: nat)
    ensures Correct(Raw(n))
  {}

  // ----- Sequencing -----

  function ParseThen<A, B>(f: Format<A>, g: Format<B>, s: Source, p: nat): Parsed<(A, B)> {
    match f.parse(s, p)
    case Fail(e) => Fail(e)
    case Ok(a, p1) =>
      match g.parse(s, p1)
      case Fail(e) => Fail(e)
      case Ok(b, p2) => Ok((a, b), p2)
  }

  function Then<A, B>(f: Format<A>, g: Format<B>): Format<(A, B)> {
    Format(
      (s: Source, p: nat) => ParseThen(f, g, s, p),
      (x: (A, B)) => f.encode(x.0) + g.encode(x.1),
      (x: (A, B)) => f.fits(x.0) && g.fits(x.1))
  }

  lemma ThenCorrect<A(!new), B(!new)>(f: Format<A>, g: Format<B>)
    requires Correct(f) && Correct(g)
    ensures Correct(Then(f, g))
  {
    var h := Then(f, g);
    forall s: Source, p: nat | p <= |s.data| && h.parse(s, p).Ok?
      ensures var r := h.parse(s, p); h.fits(r.value) && At(s, p, h.encode(r.value)) && r.next == p + |h.encode(r.value)|
    {
      var a := f.parse(s, p);
      var b := g.parse(s, a.next);
      AtSplit(s, p, f.encode(a.value), g.encode(b.value));
    }
    forall s: Source, p: nat, x | h.fits(x) && At(s, p, h.encode(x))
      ensures h.parse(s, p) == Ok(x, p + |h.encode(x)|)
    {
      AtSplit(s, p, f.encode(x.0), g.encode(x.1));
    }
  }

  lemma ThenParse<A, B>(f: Format<A>, g: Format<B>, s: Source, p: nat)
    ensures Then(f, g).parse(s, p) == ParseThen(f, g, s, p)
  {}

  lemma ThenEncode<A, B>(f: Format<A>, g: Format<B>, a: A, b: B)
    ensures Then(f, g).encode((a, b)) == f.encode(a) + g.encode(b)
  {}

  // ----- Longer sequences -----

  lemma ThenThenCorrect<A(!new), B(!new), C(!new)>(a: Format<A>, b: Format<B>, c: Format<C>)
    requires Correct(a) && Correct(b) && Correct(c)
    ensures Correct(Then(a, Then(b, c)))
  {
    ThenCorrect(b, c);
    ThenCorrect(a, Then(b, c));
  }

  lemma ChainCorrect<A(!new), B(!new), C(!new), D(!new), E(!new)>(
      a: Format<A>, b: Format<B>, c: Format<C>, d: Format<D>, e: Format<E>)
    requires Correct(a) && Correct(b) && Correct(c) && Correct(d) && Correct(e)
    ensures Correct(Then(a, Then(b, Then(c, Then(d, e)))))
  {
    ThenCorrect(d, e);
    ThenCorrect(c, Then(d, e));
    ThenCorrect(b, Then(c, Then(d, e)));
    ThenCorrect(a, Then(b, Then(c, Then(d, e))));
  }

  lemma ChainFits<A, B, C, D, E>(fa: Format<A>, fb: Format<B>, fc: Format<C>, fd: Format<D>, fe: Format<E>,
                               a: A, b: B, c: C, d: D, e: E)
    ensures Then(fa, Then(fb, Then(fc, Then(fd, fe)))).fits((a, (b, (c, (d, e)))))
       <==> fa.fits(a) && fb.fits(b) && fc.fits(c) && fd.fits(d) && fe.fits(e)
  {}

  lemma ChainEncode<A, B, C, D, E>(fa: Format<A>, fb: Format<B>, fc: Format<C>, fd: Format<D>, fe: Format<E>,
                                a: A, b: B, c: C, d: D, e: E)
    ensures Then(fa, Then(fb, Then(fc, Then(fd, fe)))).encode((a, (b, (c, (d, e)))))
         == fa.encode(a) + (fb.encode(b) + (fc.encode(c) + (fd.encode(d) + fe.encode(e))))
  {}

  lemma ChainParse<A, B, C, D, E>(fa: Format<A>, fb: Format<B>, fc: Format<C>, fd: Format<D>, fe: Format<E>, s: Source, p: nat)
    ensures var r := Then(fa, Then(fb, Then(fc, Then(fd, fe)))).parse(s, p);
      match fa.parse(s, p) case Fail(_) => r.Fail? case Ok(a, p1) =>
      match fb.parse(s, p1) case Fail(_) => r.Fail? case Ok(b, p2) =>
      match fc.parse(s, p2) case Fail(_) => r.Fail? case Ok(c, p3) =>
      match fd.parse(s, p3) case Fail(_) => r.Fail? case Ok(d, p4) =>
      match fe.parse(s, p4) case Fail(_) => r.Fail? case Ok(e, p5) => r == Ok((a, (b, (c, (d, e)))), p5)
  {}

  // ----- A length, then that many bytes -----

  function ParseBlob(n: nat, s: Source, p: nat): Parsed<seq<byte>> {
    match ReadUint(s, p, n)
    case Fail(e) => Fail(e)
    case Ok(k, p1) => ReadBytes(s, p1, k)
  }

  function Blob(n: nat): Format<seq<byte>> {
    Format(
      (s: Source, p: nat) => ParseBlob(n, s, p),
      (b: seq<byte>) => ToBE(|b|, n) + b,
      (b: seq<byte>) => |b| < Pow256(n))
  }

  lemma BlobSound(s: Source, p: nat, n: nat)
    requires ParseBlob(n, s, p).Ok?
    ensures var r := ParseBlob(n, s, p);
      |r.value| < Pow256(n) && At(s, p, ToBE(|r.value|, n) + r.value) && r.next == p + n + |r.value|
  {
    ThenNumber(s, p, n, ParseBlob(n, s, p).value);
  }

  lemma BytesFrom(s: Source, p: nat, n: nat, b: seq<byte>)
    requires ReadUint(s, p, n) == Ok(|b|, p + n) && At(s, p + n, b)
    ensures ParseBlob(n, s, p) == Ok(b, p + n + |b|)
  {}

  lemma BlobComplete(s: Source, p: nat, n: nat, b: seq<byte>)
    requires |b| < Pow256(n) && At(s, p, ToBE(|b|, n) + b)
    ensures ParseBlob(n, s, p) == Ok(b, p + n + |b|)
  {
    NumberThen(s, p, n, |b|, b);
    BytesFrom(s, p, n, b);
  }

  lemma BlobCorrect(n: nat)
    ensures Correct(Blob(n))
  {
    var h := Blob(n);
    forall s: Source, p: nat | h.parse(s, p).Ok?
      ensures var r := h.parse(s, p); h.fits(r.value) && At(s, p, h.encode(r.value)) && r.next == p + |h.encode(r.value)|
    {
      BlobSound(s, p, n);
    }
    forall s: Source, p: nat, b: seq<byte> | h.fits(b) && At(s, p, h.encode(b))
      ensures h.parse(s, p) == Ok(b, p + |h.encode(b)|)
    {
      BlobComplete(s, p, n, b);
    }
  }

  // ----- A length that other parts stand between -----

  function ParseSized<T>(n: nat, f: nat -> Format<T>, s: Source, p: nat): Parsed<T> {
    match ReadUint(s, p, n)
    case Fail(e) => Fail(e)
    case Ok(k, p1) => f(k).parse(s, p1)
  }

  /** A length, then whatever format that length selects; `size` is the length of a value. */
  function Sized<T>(n: nat, f: nat -> Format<T>, size: T -> nat): Format<T> {
    Format(
      (s: Source, p: nat) => ParseSized(n, f, s, p),
      (x: T) => ToBE(size(x), n) + f(size(x)).encode(x),
      (x: T) => size(x) < Pow256(n) && f(size(x)).fits(x))
  }

  lemma SizedCorrect<T(!new)>(n: nat, f: nat -> Format<T>, size: T -> nat)
    requires forall k: nat :: Correct(f(k))
    requires forall k: nat, x :: f(k).fits(x) ==> size(x) == k
    ensures Correct(Sized(n, f, size))
  {
    var h := Sized(n, f, size);
    forall s: Source, p: nat | p <= |s.data| && h.parse(s, p).Ok?
      ensures var r := h.parse(s, p); h.fits(r.value) && At(s, p, h.encode(r.value)) && r.next == p + |h.encode(r.value)|
    {
      SizedSound(n, f, size, s, p);
    }
    forall s: Source, p: nat, x | h.fits(x) && At(s, p, h.encode(x))
      ensures h.parse(s, p) == Ok(x, p + |h.encode(x)|)
    {
      SizedComplete(n, f, size, s, p, x);
    }
  }

  lemma SizedSound<T(!new)>(n: nat, f: nat -> Format<T>, size: T -> nat, s: Source, p: nat)
    requires forall k: nat :: Correct(f(k))
    requires forall k: nat, x :: f(k).fits(x) ==> size(x) == k
    requires p <= |s.data| && ParseSized(n, f, s, p).Ok?
    ensures var r := ParseSized(n, f, s, p);
            var e := ToBE(size(r.value), n) + f(size(r.value)).encode(r.value);
      size(r.value) < Pow256(n) && f(size(r.value)).fits(r.value) && At(s, p, e) && r.next == p + |e|
  {
    var k := ReadUint(s, p, n);
    var x := f(k.value).parse(s, k.next);
    assert Correct(f(k.value)) && f(k.value).fits(x.value);
    ThenNumber(s, p, n, f(k.value).encode(x.value));
  }

  lemma SizedComplete<T(!new)>(n: nat, f: nat -> Format<T>, size: T -> nat, s: Source, p: nat, x: T)
    requires forall k: nat :: Correct(f(k))
    requires size(x) < Pow256(n) && f(size(x)).fits(x) && At(s, p, ToBE(size(x), n) + f(size(x)).encode(x))
    ensures ParseSized(n, f, s, p) == Ok(x, p + |ToBE(size(x), n) + f(size(x)).encode(x)|)
  {
    var k := size(x);
    NumberThen(s, p, n, k, f(k).encode(x));
    assert Correct(f(k));
  }

  lemma SizedEncode<T>(n: nat, f: nat -> Format<T>, size: T -> nat, x: T)
    ensures Sized(n, f, size).encode(x) == ToBE(size(x), n) + f(size(x)).encode(x)
    ensures Sized(n, f, size).fits(x) <==> size(x) < Pow256(n) && f(size(x)).fits(x)
  {}

  // ----- A count, then that many items -----

  function Prepend<T>(x: T, r: Parsed<seq<T>>): Parsed<seq<T>> {
    match r
    case Fail(e) => Fail(e)
    case Ok(xs, next) => Ok([x] + xs, next)
  }

  /** `k` items one after another; the first failure ends it. */
  function ParseMany<T>(f: Format<T>, s: Source, p: nat, k: nat): (r: Parsed<seq<T>>)
    ensures r.Ok? ==> |r.value| == k
    decreases k
  {
    if k == 0 then Ok([], p) else
      match f.parse(s, p)
      case Fail(e) => Fail(e)
      case Ok(x, next) => Prepend(x, ParseMany(f, s, next, k - 1))
  }

  function EncodeMany<T>(f: Format<T>, xs: seq<T>): seq<byte> {
    if xs == [] then [] else f.encode(xs[0]) + EncodeMany(f, xs[1..])
  }

  predicate AllFit<T>(f: Format<T>, xs: seq<T>) {
    xs == [] || (f.fits(xs[0]) && AllFit(f, xs[1..]))
  }

  lemma {:induction false} AllFitMeans<T>(f: Format<T>, xs: seq<T>)
    ensures AllFit(f, xs) <==> forall i :: 0 <= i < |xs| ==> f.fits(xs[i])
  {
    if xs != [] {
      AllFitMeans(f, xs[1..]);
      assert forall i :: 0 < i < |xs| ==> xs[i] == xs[1..][i - 1];
      assert forall i :: 0 <= i < |xs| - 1 ==> xs[1..][i] == xs[i + 1];
    }
  }

  lemma {:induction false} ManySound<T>(s: Source, p: nat, f: Format<T>, k: nat)
    requires Sound(f) && p <= |s.data| && ParseMany(f, s, p, k).Ok?
    ensures var r := ParseMany(f, s, p, k);
      AllFit(f, r.value) && At(s, p, EncodeMany(f, r.value)) && r.next == p + |EncodeMany(f, r.value)|
    decreases k
  {
    if k > 0 {
      var x := f.parse(s, p).value;
      ManySound(s, f.parse(s, p).next, f, k - 1);
      var xs := ParseMany(f, s, p, k).value;
      assert xs[1..] == ParseMany(f, s, f.parse(s, p).next, k - 1).value;
      AtSplit(s, p, f.encode(x), EncodeMany(f, xs[1..]));
    }
  }

  lemma {:induction false} ManyComplete<T(!new)>(s: Source, p: nat, f: Format<T>, xs: seq<T>)
    requires Complete(f) && AllFit(f, xs) && At(s, p, EncodeMany(f, xs))
    ensures ParseMany(f, s, p, |xs|) == Ok(xs, p + |EncodeMany(f, xs)|)
    decreases |xs|
  {
    if xs != [] {
      AtSplit(s, p, f.encode(xs[0]), EncodeMany(f, xs[1..]));
      ManyComplete(s, p + |f.encode(xs[0])|, f, xs[1..]);
      assert xs == [xs[0]] + xs[1..];
    }
  }

  function ParseCounted<T>(n: nat, f: Format<T>, s: Source, p: nat): Parsed<seq<T>> {
    match ReadUint(s, p, n)
    case Fail(e) => Fail(e)
    case Ok(k, p1) => ParseMany(f, s, p1, k)
  }

  function Counted<T>(n: nat, f: Format<T>): Format<seq<T>> {
    Format(
      (s: Source, p: nat) => ParseCounted(n, f, s, p),
      (xs: seq<T>) => ToBE(|xs|, n) + EncodeMany(f, xs),
      (xs: seq<T>) => |xs| < Pow256(n) && AllFit(f, xs))
  }

  lemma CountedSound<T>(s: Source, p: nat, n: nat, f: Format<T>)
    requires Sound(f) && p <= |s.data| && ParseCounted(n, f, s, p).Ok?
    ensures var r := ParseCounted(n, f, s, p);
      && |r.value| < Pow256(n) && AllFit(f, r.value) && At(s, p, ToBE(|r.value|, n) + EncodeMany(f, r.value))
      && r.next == p + n + |EncodeMany(f, r.value)|
  {
    var k := ReadUint(s, p, n);
    ManySound(s, k.next, f, k.value);
    ThenNumber(s, p, n, EncodeMany(f, ParseMany(f, s, k.next, k.value).value));
  }

  lemma ManyFrom<T>(s: Source, p: nat, n: nat, f: Format<T>, k: nat, r: Parsed<seq<T>>)
    requires ReadUint(s, p, n) == Ok(k, p + n) && ParseMany(f, s, p + n, k) == r
    ensures ParseCounted(n, f, s, p) == r
  {}

  lemma CountedComplete<T(!new)>(s: Source, p: nat, n: nat, f: Format<T>, xs: seq<T>)
    requires Complete(f) && |xs| < Pow256(n) && AllFit(f, xs) && At(s, p, ToBE(|xs|, n) + EncodeMany(f, xs))
    ensures ParseCounted(n, f, s, p) == Ok(xs, p + n + |EncodeMany(f, xs)|)
  {
    NumberThen(s, p, n, |xs|, EncodeMany(f, xs));
    ManyComplete(s, p + n, f, xs);
    ManyFrom(s, p, n, f, |xs|, Ok(xs, p + n + |EncodeMany(f, xs)|));
  }

  lemma CountedCorrect<T(!new)>(n: nat, f: Format<T>)
    requires Correct(f)
    ensures Correct(Counted(n, f))
  {
    var h := Counted(n, f);
    forall s: Source, p: nat | p <= |s.data| && h.parse(s, p).Ok?
      ensures var r := h.parse(s, p); h.fits(r.value) && At(s, p, h.encode(r.value)) && r.next == p + |h.encode(r.value)|
    {
      CountedSound(s, p, n, f);
    }
    forall s: Source, p: nat, xs: seq<T> | h.fits(xs) && At(s, p, h.encode(xs))
      ensures h.parse(s, p) == Ok(xs, p + |h.encode(xs)|)
    {
      CountedComplete(s, p, n, f, xs);
    }
  }

  // ----- Views -----

  /** The same bytes read as another type; `from` is the inverse of `to` on fitting values. */
  function View<A, B>(f: Format<A>, to: A -> B, from: B -> A, fits: B -> bool): Format<B> {
    Format(
      (s: Source, p: nat) => match f.parse(s, p) case Fail(e) => Fail(e) case Ok(a, next) => Ok(to(a), next),
      (b: B) => f.encode(from(b)),
      (b: B) => fits(b))
  }

  lemma ViewCorrect<A(!new), B(!new)>(f: Format<A>, to: A -> B, from: B -> A, fits: B -> bool)
    requires Correct(f)
    requires forall a :: f.fits(a) ==> fits(to(a)) && from(to(a)) == a
    requires forall b :: fits(b) ==> f.fits(from(b)) && to(from(b)) == b
    ensures Correct(View(f, to, from, fits))
  {}

  /** Another type for the same values. */
  function Iso<A, B>(f: Format<A>, to: A -> B, from: B -> A): Format<B> {
    View(f, to, from, (b: B) => f.fits(from(b)))
  }

  lemma IsoCorrect<A(!new), B(!new)>(f: Format<A>, to: A -> B, from: B -> A)
    requires Correct(f)
    requires (forall a :: from(to(a)) == a) && (forall b :: to(from(b)) == b)
    ensures Correct(Iso(f, to, from))
  {
    ViewCorrect(f, to, from, (b: B) => f.fits(from(b)));
  }

  lemma IsoParse<A, B>(f: Format<A>, to: A -> B, from: B -> A, s: Source, p: nat)
    ensures Iso(f, to, from).parse(s, p) == match f.parse(s, p) case Fail(e) => Fail(e) case Ok(a, next) => Ok(to(a), next)
  {}

  lemma IsoEncode<A, B>(f: Format<A>, to: A -> B, from: B -> A, b: B)
    ensures Iso(f, to, from).encode(b) == f.encode(from(b))
  {}

  lemma IsoFits<A, B>(f: Format<A>, to: A -> B, from: B -> A, b: B)
    ensures Iso(f, to, from).fits(b) <==> f.fits(from(b))
  {}

  /** No bytes at all; stands for the value `x`. */
  function Nothing<T(==)>(x: T): Format<T> {
    Format((s: Source, p: nat) => Ok(x, p), (y: T) => [], (y: T) => y == x)
  }

  lemma NothingCorrect<T(!new)>(x: T)
    ensures Correct(Nothing(x))
  {}

  /** Only the values that pass a check; `error` reports one that does not. */
  function Checked<A>(f: Format<A>, passes: A -> bool, error: Error): Format<A> {
    Format(
      (s: Source, p: nat) =>
        match f.parse(s, p)
        case Fail(e) => Fail(e)
        case Ok(a, next) => if passes(a) then Ok(a, next) else Fail(error),
      f.encode,
      (a: A) => f.fits(a) && passes(a))
  }

  lemma CheckedCorrect<A(!new)>(f: Format<A>, passes: A -> bool, error: Error)
    requires Correct(f)
    ensures Correct(Checked(f, passes, error))
  {}

  /** The same format, reporting `error` whatever goes wrong. */
  function Relabel<A>(f: Format<A>, error: Error): Format<A> {
    Format(
      (s: Source, p: nat) => match f.parse(s, p) case Fail(_) => Fail(error) case Ok(a, next) => Ok(a, next),
      f.encode,
      f.fits)
  }

  lemma RelabelCorrect<A(!new)>(f: Format<A>, error: Error)
    requires Correct(f)
    ensures Correct(Relabel(f, error))
  {}

  /** A count, that many items, and the same count again. */
  function Bracketed<T>(n: nat, f: Format<T>, error: Error): Format<seq<T>> {
    View(
      Checked(Then(Counted(n, f), Uint(n)), (x: (seq<T>, nat)) => x.1 == |x.0|, error),
      (x: (seq<T>, nat)) => x.0,
      (xs: seq<T>) => (xs, |xs|),
      (xs: seq<T>) => Counted(n, f).fits(xs))
  }

  lemma BracketedCorrect<T(!new)>(n: nat, f: Format<T>, error: Error)
    requires Correct(f)
    ensures Correct(Bracketed(n, f, error))
  {
    var both := Then(Counted(n, f), Uint(n));
    CountedCorrect(n, f);
    UintCorrect(n);
    ThenCorrect(Counted(n, f), Uint(n));
    CheckedCorrect(both, (x: (seq<T>, nat)) => x.1 == |x.0|, error);
    ViewCorrect(
      Checked(both, (x: (seq<T>, nat)) => x.1 == |x.0|, error),
      (x: (seq<T>, nat)) => x.0,
      (xs: seq<T>) => (xs, |xs|),
      (xs: seq<T>) => Counted(n, f).fits(xs));
  }

  lemma BracketedFits<T>(n: nat, f: Format<T>, error: Error, xs: seq<T>)
    ensures Bracketed(n, f, error).fits(xs) <==> |xs| < Pow256(n) && forall i :: 0 <= i < |xs| ==> f.fits(xs[i])
  {
    AllFitMeans(f, xs);
  }

  lemma BracketedEncode<T>(n: nat, f: Format<T>, error: Error, xs: seq<T>)
    ensures Bracketed(n, f, error).encode(xs) == ToBE(|xs|, n) + EncodeMany(f, xs) + ToBE(|xs|, n)
  {}

  // ----- Loops over items -----

  function PrependAll<T>(done: seq<T>, r: Parsed<seq<T>>): Parsed<seq<T>> {
    match r
    case Fail(e) => Fail(e)
    case Ok(xs, next) => Ok(done + xs, next)
  }

  lemma PrependNone<T>(r: Parsed<seq<T>>)
    ensures PrependAll([], r) == r
  {
    match r
    case Fail(_) =>
    case Ok(xs, _) => assert [] + xs == xs;
  }

  lemma PrependToNone<T>(done: seq<T>, p: nat)
    ensures PrependAll(done, Ok([], p)) == Ok(done, p)
  {
    assert done + [] == done;
  }

  /** A loop that has read `done` and stands at `p` may read one item more. */
  lemma ManyPush<T>(f: Format<T>, s: Source, done: seq<T>, p: nat, k: nat)
    requires k > 0
    ensures PrependAll(done, ParseMany(f, s, p, k))
         == match f.parse(s, p)
            case Fail(e) => Fail(e)
            case Ok(x, next) => PrependAll(done + [x], ParseMany(f, s, next, k - 1))
  {
    match f.parse(s, p)
    case Fail(_) =>
    case Ok(x, next) =>
      match ParseMany(f, s, next, k - 1)
      case Fail(_) =>
      case Ok(xs, _) => assert done + ([x] + xs) == (done + [x]) + xs;
  }

  // ----- Lists that run out -----

  /** Reading an item reports `e` exactly at the positions that `ends` holds of. */
  ghost predicate EndsAt<T>(f: Format<T>, s: Source, e: Error, ends: nat -> bool) {
    forall p: nat {:trigger f.parse(s, p)} :: p <= |s.data| ==> (f.parse(s, p) == Fail(e) <==> ends(p))
  }

  /** Fewer than `k` fitting items stand encoded from `p` on, and behind them `ends` holds. */
  predicate RunsOutAfter<T>(f: Format<T>, s: Source, p: nat, k: nat, xs: seq<T>, ends: nat -> bool) {
    |xs| < k && AllFit(f, xs) && At(s, p, EncodeMany(f, xs)) && ends(p + |EncodeMany(f, xs)|)
  }

  lemma {:induction false} ManyRunsOut<T>(f: Format<T>, s: Source, p: nat, k: nat, e: Error, ends: nat -> bool) returns (xs: seq<T>)
    requires Sound(f) && EndsAt(f, s, e, ends) && p <= |s.data| && ParseMany(f, s, p, k) == Fail(e)
    ensures RunsOutAfter(f, s, p, k, xs, ends)
    decreases k
  {
    match f.parse(s, p)
    case Fail(_) => xs := [];
    case Ok(x, next) =>
      var rest := ManyRunsOut(f, s, next, k - 1, e, ends);
      xs := [x] + rest;
      assert xs[1..] == rest;
      AtSplit(s, p, f.encode(x), EncodeMany(f, rest));
  }

  lemma {:induction false} RunsOutIsSeen<T(!new)>(f: Format<T>, s: Source, p: nat, k: nat, e: Error, ends: nat -> bool, xs: seq<T>)
    requires Correct(f) && EndsAt(f, s, e, ends) && RunsOutAfter(f, s, p, k, xs, ends)
    ensures ParseMany(f, s, p, k) == Fail(e)
    decreases |xs|
  {
    if xs != [] {
      AtSplit(s, p, f.encode(xs[0]), EncodeMany(f, xs[1..]));
      RunsOutIsSeen(f, s, p + |f.encode(xs[0])|, k - 1, e, ends, xs[1..]);
    }
  }
}
