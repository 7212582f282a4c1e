/** The verifiable random function, over a group of prime order.  A point is represented by
    its discrete logarithm to the base point, so that adding points adds scalars; hashing
    and byte encodings are parameters. */
module Vrf {
  import opened Basics

  type Bytes = seq<int>

  datatype Suite = Suite(
    order: nat,
    invert: int -> int,
    packPoint: int -> Bytes,
    unpackPoint: Bytes -> Option<int>,
    packScalar: int -> Bytes,
    unpackScalar: Bytes -> Option<int>,
    offset: (Bytes, Bytes) -> int,
    challenge: (Bytes, Bytes, int, int) -> int,
    nonce: int -> int)
  {
    predicate Scalar(x: int) {
      0 <= x < order
    }

    /** Non-zero scalars have inverses, encodings are canonical, and every hash is a scalar. */
    ghost predicate Lawful() {
      && order > 1
      && (forall x :: 0 < x < order ==> Scalar(invert(x)) && (x * invert(x)) % order == 1)
      && (forall x :: Scalar(x) ==> unpackPoint(packPoint(x)) == Some(x))
      && (forall x :: Scalar(x) ==> |packScalar(x)| == 32 && unpackScalar(packScalar(x)) == Some(x))
      && (forall b :: unpackPoint(b).Some? ==> Scalar(unpackPoint(b).value) && packPoint(unpackPoint(b).value) == b)
      && (forall b :: unpackScalar(b).Some? ==> Scalar(unpackScalar(b).value))
      && (forall p, i :: Scalar(offset(p, i)))
      && (forall p, v, a, b :: Scalar(challenge(p, v, a, b)))
      && (forall x :: Scalar(nonce(x)))
    }
  }

  datatype PublicKey = PublicKey(bytes: Bytes, point: int)

  /** The scalar times the base point. */
  function BaseMul(s: Suite, x: int): (p: int)
    requires s.order > 0
  {
    x % s.order
  }

  function MulTwo(s: Suite, x: int, p: int, y: int, q: int): (r: int)
    requires s.order > 0
  {
    (x * p + y * q) % s.order
  }

  /** Zero is replaced by one before inverting. */
  function SafeInvert(s: Suite, x: int): (r: int) {
    s.invert(if x == 0 then 1 else x)
  }

  function KeyOf(s: Suite, sk: int): (pk: PublicKey)
    requires s.order > 0
  {
    PublicKey(s.packPoint(BaseMul(s, sk)), BaseMul(s, sk))
  }

  /** The exponent whose inverse is the output. */
  function Exponent(s: Suite, sk: int, input: Bytes): (x: int)
    requires s.order > 0
  {
    (sk + s.offset(KeyOf(s, sk).bytes, input)) % s.order
  }

  function Compute(s: Suite, sk: int, input: Bytes): (value: Bytes)
    requires s.order > 0
  {
    s.packPoint(BaseMul(s, SafeInvert(s, Exponent(s, sk, input))))
  }

  function PackPair(s: Suite, a: int, b: int): (r: Bytes) {
    s.packScalar(a) + s.packScalar(b)
  }

  function UnpackPair(s: Suite, data: Bytes): (r: Option<(int, int)>) {
    if |data| != 64 then None
    else
      var a, b := s.unpackScalar(data[..32]), s.unpackScalar(data[32..]);
      if a.None? || b.None? then None else Some((a.value, b.value))
  }

  function ComputeWithProof(s: Suite, sk: int, input: Bytes): (r: (Bytes, Bytes))
    requires s.order > 0
  {
    var x := Exponent(s, sk, input);
    var inv := SafeInvert(s, x);
    var val := s.packPoint(BaseMul(s, inv));
    var k := s.nonce(x);
    var c := s.challenge(KeyOf(s, sk).bytes, val, BaseMul(s, k), BaseMul(s, inv * k));
    (val, PackPair(s, (k - c * x) % s.order, c))
  }

  /** The two commitments a verifier recomputes from a proof. */
  function Commitments(s: Suite, pk: PublicKey, input: Bytes, p: int, r: int, c: int): (ab: (int, int))
    requires s.order > 0
  {
    (MulTwo(s, r + c * s.offset(pk.bytes, input), 1, c, pk.point), MulTwo(s, r, p, c, 1))
  }

  predicate IsValid(s: Suite, pk: PublicKey, input: Bytes, value: Bytes, proof: Bytes)
    requires s.order > 0
  {
    var p, rc := s.unpackPoint(value), UnpackPair(s, proof);
    p.Some? && rc.Some? &&
    var ab := Commitments(s, pk, input, p.value, rc.value.0, rc.value.1);
    s.challenge(pk.bytes, value, ab.0, ab.1) == rc.value.1
  }

  // Arithmetic modulo the order

  ghost predicate Cong(n: nat, a: int, b: int)
    requires n > 0
  {
    a % n == b % n
  }

  lemma {:induction false} AtLeast(d: nat, n: nat)
    requires d >= 1
    ensures d * n >= n
  {
    if d > 1 { AtLeast(d - 1, n); }
  }

  lemma {:induction false} RemainderUnique(n: nat, q: int, r: int, q': int, r': int)
    requires n > 0 && q * n + r == q' * n + r' && 0 <= r < n && 0 <= r' < n
    ensures r == r'
  {
    assert (q - q') * n == r' - r;
    if q > q' { AtLeast(q - q', n); }
    assert (q' - q) * n == r - r';
    if q < q' { AtLeast(q' - q, n); }
  }

  lemma {:induction false} DivModUnique(n: nat, a: int, q: int, r: int)
    requires n > 0 && a == q * n + r && 0 <= r < n
    ensures a % n == r
  {
    RemainderUnique(n, q, r, a / n, a % n);
  }

  /** A scalar is its own remainder. */
  lemma {:induction false} SmallMod(n: nat, a: int)
    requires 0 <= a < n
    ensures a % n == a
  {
    DivModUnique(n, a, 0, a);
  }

  lemma {:induction false} CongBy(n: nat, a: int, b: int, q: int)
    requires n > 0 && a == b + q * n
    ensures Cong(n, a, b)
  {
    assert a == (b / n + q) * n + b % n;
    DivModUnique(n, a, b / n + q, b % n);
  }

  lemma {:induction false} CongWitness(n: nat, a: int, b: int) returns (q: int)
    requires n > 0 && Cong(n, a, b)
    ensures a == b + q * n
  {
    q := a / n - b / n;
  }

  lemma {:induction false} ModCong(n: nat, a: int)
    requires n > 0
    ensures Cong(n, a % n, a)
  {
    CongBy(n, a % n, a, -(a / n));
  }

  lemma {:induction false} CongAdd(n: nat, a: int, b: int, c: int)
    requires n > 0 && Cong(n, a, b)
    ensures Cong(n, a + c, b + c)
  {
    var q := CongWitness(n, a, b);
    CongBy(n, a + c, b + c, q);
  }

  lemma {:induction false} CongMul(n: nat, a: int, b: int, f: int)
    requires n > 0 && Cong(n, a, b)
    ensures Cong(n, a * f, b * f)
  {
    var q := CongWitness(n, a, b);
    assert a * f == b * f + (q * f) * n;
    CongBy(n, a * f, b * f, q * f);
  }

  /** A non-zero factor can be cancelled. */
  lemma {:induction false} Cancel(s: Suite, d: int, y: int)
    requires s.Lawful() && d % s.order != 0 && Cong(s.order, d * y, d)
    ensures y % s.order == 1
  {
    var n, e := s.order, d % s.order;
    var i := s.invert(e);
    ModCong(n, d);
    CongMul(n, e, d, i);
    SmallMod(n, 1);
    assert Cong(n, d * i, 1);
    CongMul(n, d * y, d, i);
    CongMul(n, d * i, 1, y);
    assert (d * i) * y == (d * y) * i && 1 * y == y;
  }

  /** The first commitment amounts to r + c * x, whatever the value. */
  lemma {:induction false} FirstCommitment(s: Suite, sk: int, input: Bytes, p: int, r: int, c: int)
    requires s.Lawful() && s.Scalar(sk)
    ensures var x := Exponent(s, sk, input);
            Commitments(s, KeyOf(s, sk), input, p, r, c).0 == (r + c * x) % s.order
  {
    var n, off := s.order, s.offset(KeyOf(s, sk).bytes, input);
    var x := Exponent(s, sk, input);
    SmallMod(n, sk);
    ModCong(n, sk + off);
    CongMul(n, x, sk + off, c);
    CongAdd(n, x * c, (sk + off) * c, r);
    assert (sk + off) * c + r == (r + c * off) * 1 + c * sk && x * c + r == r + c * x;
  }

  /** What the output is: the point of the inverse of key plus offset, or the base point when
      that sum is zero. */
  lemma {:induction false} OutputIsInverse(s: Suite, sk: int, input: Bytes)
    requires s.Lawful() && s.Scalar(sk)
    ensures var x, p := (sk + s.offset(s.packPoint(sk), input)) % s.order, s.unpackPoint(Compute(s, sk, input));
            p.Some? && s.Scalar(p.value) && if x == 0 then p.value == 1 else (x * p.value) % s.order == 1
  {
    SmallMod(s.order, sk);
    SafeInvertScalar(s, Exponent(s, sk, input));
  }

  /** When a proof is accepted: value and proof can be read, and the challenge over key, value
      and both recomputed commitments is the one in the proof. */
  lemma {:induction false} AcceptedIff(s: Suite, sk: int, input: Bytes, value: Bytes, proof: Bytes)
    requires s.Lawful() && s.Scalar(sk)
    ensures IsValid(s, KeyOf(s, sk), input, value, proof) <==>
              && s.unpackPoint(value).Some? && |proof| == 64
              && s.unpackScalar(proof[..32]).Some? && s.unpackScalar(proof[32..]).Some?
              && var x, p := (sk + s.offset(s.packPoint(sk), input)) % s.order, s.unpackPoint(value).value;
                 var r, c := s.unpackScalar(proof[..32]).value, s.unpackScalar(proof[32..]).value;
                 c == s.challenge(s.packPoint(sk), value, (r + c * x) % s.order, (r * p + c) % s.order)
  {
    SmallMod(s.order, sk);
    if s.unpackPoint(value).Some? && UnpackPair(s, proof).Some? {
      var p, rc := s.unpackPoint(value).value, UnpackPair(s, proof).value;
      FirstCommitment(s, sk, input, p, rc.0, rc.1);
      assert rc.0 * p + rc.1 * 1 == rc.0 * p + rc.1;
    }
  }

  /** The nonce comes back: with r = k - c * x, r + c * x is k. */
  lemma {:induction false} ResponseOpens(n: nat, k: int, cx: int)
    requires n > 0 && 0 <= k < n
    ensures ((k - cx) % n + cx) % n == k
  {
    ModCong(n, k - cx);
    CongAdd(n, (k - cx) % n, k - cx, cx);
    SmallMod(n, k);
  }

  /** When p is the inverse of x, the second commitment is k * p. */
  lemma {:induction false} SecondOpens(n: nat, k: int, c: int, x: int, p: int)
    requires n > 0 && Cong(n, x * p, 1)
    ensures ((k - c * x) % n * p + c) % n == (k * p) % n
  {
    var r := (k - c * x) % n;
    ModCong(n, k - c * x);
    CongMul(n, r, k - c * x, p);
    CongAdd(n, r * p, (k - c * x) * p, c);
    CongMul(n, x * p, 1, -c);
    CongAdd(n, (x * p) * (-c), 1 * (-c), k * p + c);
    Distribute(k, c, x, p);
  }

  lemma {:induction false} Distribute(k: int, c: int, x: int, p: int)
    ensures (k - c * x) * p == (x * p) * (-c) + k * p
  {
    assert (k - c * x) * p == k * p - (c * x) * p;
    assert (x * p) * (-c) == -((c * x) * p);
  }

  lemma {:induction false} UnpackPacked(s: Suite, a: int, b: int)
    requires s.Lawful() && s.Scalar(a) && s.Scalar(b)
    ensures UnpackPair(s, PackPair(s, a, b)) == Some((a, b))
  {
    var data := PackPair(s, a, b);
    assert data[..32] == s.packScalar(a) && data[32..] == s.packScalar(b);
  }

  lemma {:induction false} SafeInvertScalar(s: Suite, x: int)
    requires s.Lawful() && s.Scalar(x)
    ensures s.Scalar(SafeInvert(s, x)) && BaseMul(s, SafeInvert(s, x)) == SafeInvert(s, x)
    ensures x != 0 ==> (x * SafeInvert(s, x)) % s.order == 1
    ensures x == 0 ==> SafeInvert(s, x) == 1
  {
    var i := SafeInvert(s, x);
    SmallMod(s.order, i);
    if x == 0 { SmallMod(s.order, i); assert (1 * i) % s.order == 1; }
  }

  /** What a verifier finds in a produced proof: the first commitment opens to the nonce; the
      second is the prover's one for a non-zero exponent and off by the challenge for zero. */
  lemma {:induction false} ProofOpens(s: Suite, sk: int, input: Bytes)
    requires s.Lawful() && s.Scalar(sk)
    ensures var (value, proof) := ComputeWithProof(s, sk, input);
            var x := Exponent(s, sk, input);
            var k, inv := s.nonce(x), SafeInvert(s, x);
            var c := s.challenge(KeyOf(s, sk).bytes, value, k, (inv * k) % s.order);
            && s.unpackPoint(value) == Some(inv)
            && UnpackPair(s, proof) == Some(((k - c * x) % s.order, c))
            && Commitments(s, KeyOf(s, sk), input, inv, (k - c * x) % s.order, c) ==
               (k, if x != 0 then (inv * k) % s.order else (k + c) % s.order)
  {
    var n, x := s.order, Exponent(s, sk, input);
    var k, inv := s.nonce(x), SafeInvert(s, x);
    var value := ComputeWithProof(s, sk, input).0;
    SafeInvertScalar(s, x);
    SmallMod(n, k);
    var c := s.challenge(KeyOf(s, sk).bytes, value, k, (inv * k) % n);
    var r := (k - c * x) % n;
    UnpackPacked(s, r, c);
    FirstCommitment(s, sk, input, inv, r, c);
    ResponseOpens(n, k, c * x);
    if x != 0 {
      SmallMod(n, 1);
      SecondOpens(n, k, c, x, inv);
      assert r * inv + c * 1 == r * inv + c && k * inv == inv * k;
    } else {
      assert r == k;
    }
  }

  /** A produced proof carries the plain output and is accepted for every non-zero exponent.
      For the zero exponent it is accepted exactly when the challenge also fits the second
      commitment shifted by itself. */
  lemma {:induction false} ProducedProofIsAccepted(s: Suite, sk: int, input: Bytes)
    requires s.Lawful() && s.Scalar(sk)
    ensures var (value, proof) := ComputeWithProof(s, sk, input);
            var pk, x := KeyOf(s, sk), Exponent(s, sk, input);
            var k := s.nonce(x);
            var c := s.challenge(pk.bytes, value, k, k);
            && value == Compute(s, sk, input)
            && (IsValid(s, pk, input, value, proof) <==>
                  x != 0 || s.challenge(pk.bytes, value, k, (k + c) % s.order) == c)
  {
    ProofOpens(s, sk, input);
    ValueIsComputed(s, sk, input);
    UnitInverse(s, Exponent(s, sk, input));
    hide Suite.Lawful, Compute, ComputeWithProof, Exponent, KeyOf, Commitments, UnpackPair, SafeInvert;
    var x := Exponent(s, sk, input);
    var k, inv := s.nonce(x), SafeInvert(s, x);
    if x == 0 { assert (inv * k) % s.order == k; }
  }

  lemma {:induction false} ValueIsComputed(s: Suite, sk: int, input: Bytes)
    requires s.order > 0
    ensures ComputeWithProof(s, sk, input).0 == Compute(s, sk, input)
  {}

  /** For the zero exponent the prover's second commitment is the nonce as well. */
  lemma {:induction false} UnitInverse(s: Suite, x: int)
    requires s.Lawful() && s.Scalar(x)
    ensures x == 0 ==> (SafeInvert(s, x) * s.nonce(x)) % s.order == s.nonce(x)
  {
    SafeInvertScalar(s, x);
    SmallMod(s.order, s.nonce(x));
  }

  /** The challenge hash tells second commitments apart. */
  ghost predicate Separates(s: Suite) {
    forall p, v, a, b, b' :: s.Scalar(b) && s.Scalar(b') && s.challenge(p, v, a, b) == s.challenge(p, v, a, b') ==> b == b'
  }

  lemma {:induction false} ShiftedBy(n: nat, k: int, c: int)
    requires 0 <= k < n && 0 <= c < n
    ensures 0 <= (k + c) % n < n && ((k + c) % n == k <==> c == 0)
  {
    if k + c < n { SmallMod(n, k + c); } else { DivModUnique(n, k + c, 1, k + c - n); }
  }

  /** With a challenge hash that tells second commitments apart, the zero exponent is
      accepted exactly when its challenge is zero. */
  lemma {:induction false} ZeroExponentNeedsZeroChallenge(s: Suite, sk: int, input: Bytes)
    requires s.Lawful() && s.Scalar(sk) && Exponent(s, sk, input) == 0 && Separates(s)
    ensures var (value, proof) := ComputeWithProof(s, sk, input);
            var k := s.nonce(0);
            IsValid(s, KeyOf(s, sk), input, value, proof) <==> s.challenge(KeyOf(s, sk).bytes, value, k, k) == 0
  {
    hide IsValid, ComputeWithProof, Compute, Exponent;
    ProducedProofIsAccepted(s, sk, input);
    var value, k := ComputeWithProof(s, sk, input).0, s.nonce(0);
    ShiftedBy(s.order, k, s.challenge(KeyOf(s, sk).bytes, value, k, k));
  }

  /** Two answers to different challenges on the same commitments pin the value down. */
  lemma {:induction false} TwoAnswers(s: Suite, sk: int, input: Bytes, p: int, r1: int, c1: int, r2: int, c2: int)
    requires s.Lawful() && s.Scalar(sk) && s.Scalar(c1) && s.Scalar(c2) && c1 != c2
    requires Commitments(s, KeyOf(s, sk), input, p, r1, c1) == Commitments(s, KeyOf(s, sk), input, p, r2, c2)
    ensures (Exponent(s, sk, input) * p) % s.order == 1
  {
    var n, x := s.order, Exponent(s, sk, input);
    FirstCommitment(s, sk, input, p, r1, c1);
    FirstCommitment(s, sk, input, p, r2, c2);
    AnswersCombine(n, x, p, r1, c1, r2, c2);
    var d := c2 - c1;
    if d > 0 { SmallMod(n, d); } else { DivModUnique(n, d, -1, d + n); }
    Cancel(s, d, x * p);
  }

  /** Subtracting the two equations: the difference of the challenges times x * p is itself. */
  lemma {:induction false} AnswersCombine(n: nat, x: int, p: int, r1: int, c1: int, r2: int, c2: int)
    requires n > 0 && Cong(n, r1 + c1 * x, r2 + c2 * x) && Cong(n, r1 * p + c1, r2 * p + c2)
    ensures Cong(n, (c2 - c1) * (x * p), c2 - c1)
  {
    CongAdd(n, r1 + c1 * x, r2 + c2 * x, -r2 - c1 * x);
    assert c2 * x - c1 * x == (c2 - c1) * x;
    CongMul(n, r1 - r2, (c2 - c1) * x, p);
    CongAdd(n, r1 * p + c1, r2 * p + c2, -(r2 * p) - c1);
    assert r1 * p - r2 * p == (r1 - r2) * p;
    assert (c2 - c1) * x * p == (c2 - c1) * (x * p);
  }

  lemma {:induction false} InverseUniqueMod(n: nat, x: int, p: int, i: int)
    requires n > 1 && Cong(n, x * p, 1) && Cong(n, x * i, 1) && 0 <= p < n && 0 <= i < n
    ensures p == i
  {
    CongMul(n, x * p, 1, i);
    CongMul(n, x * i, 1, p);
    Exchange(x, p, i);
    SmallMod(n, p);
    SmallMod(n, i);
  }

  lemma {:induction false} Exchange(x: int, p: int, i: int)
    ensures (x * p) * i == (x * i) * p
  {}

  lemma {:induction false} InverseUnique(s: Suite, x: int, p: int)
    requires s.Lawful() && s.Scalar(x) && s.Scalar(p) && (x * p) % s.order == 1
    ensures x != 0 && p == SafeInvert(s, x)
  {
    hide SafeInvert;
    SmallMod(s.order, 0);
    SmallMod(s.order, 1);
    assert x != 0;
    SafeInvertScalar(s, x);
    InverseUniqueMod(s.order, x, p, SafeInvert(s, x));
  }

  /** The output is unique: if a value is accepted with the same commitments under two
      challenge hashes that answer differently, it is the one the key computes. */
  lemma {:induction false} AcceptedValueIsComputed(s: Suite, other: (Bytes, Bytes, int, int) -> int, sk: int, input: Bytes,
                                value: Bytes, proof1: Bytes, proof2: Bytes)
    requires s.Lawful() && s.(challenge := other).Lawful() && s.Scalar(sk)
    requires IsValid(s, KeyOf(s, sk), input, value, proof1)
    requires IsValid(s.(challenge := other), KeyOf(s, sk), input, value, proof2)
    requires var p, a, b := s.unpackPoint(value).value, UnpackPair(s, proof1).value, UnpackPair(s, proof2).value;
             && a.1 != b.1
             && Commitments(s, KeyOf(s, sk), input, p, a.0, a.1) == Commitments(s, KeyOf(s, sk), input, p, b.0, b.1)
    ensures Exponent(s, sk, input) != 0 && value == Compute(s, sk, input)
  {
    var p, a, b := s.unpackPoint(value).value, UnpackPair(s, proof1).value, UnpackPair(s, proof2).value;
    TwoAnswers(s, sk, input, p, a.0, a.1, b.0, b.1);
    InverseUnique(s, Exponent(s, sk, input), p);
    SafeInvertScalar(s, Exponent(s, sk, input));
  }
}
