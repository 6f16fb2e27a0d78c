/**
 Length-prefixed digests: `_length_prefixed` and `stable_identity`
 (scripts/lifecycle_archive.py), and the decimal numbers that are fed to them.

 The hash is a parameter. No statement assumes that it is injective: a statement that
 needs distinct digests names the finitely many inputs that must not collide.
 */
module Encoding {
  import opened Wrappers

  type Byte = b: int | 0 <= b < 256
  type Bytes = seq<Byte>

  const LENGTH_LIMIT: nat := 0x1_0000_0000_0000_0000
  const PREFIX_WIDTH: nat := 8

  /** A byte string whose length fits the prefix; no longer one can be held in memory. */
  type Blob = b: Bytes | |b| < LENGTH_LIMIT witness []

  type Digest = b: Bytes | |b| == 32 witness seq(32, _ => 0)

  /** SHA-256, of which only determinism is used. */
  type Hash = Bytes -> Digest

  /** `hash` does not collide on the inputs named here. */
  ghost predicate Distinguishes(hash: Hash, inputs: set<Bytes>) {
    forall x, y | x in inputs && y in inputs && hash(x) == hash(y) :: x == y
  }

  // ----- big-endian integers -----

  function BigEndian(n: nat, width: nat): (r: Bytes)
    ensures |r| == width
  {
    if width == 0 then [] else BigEndian(n / 256, width - 1) + [n % 256]
  }

  function Value(s: Bytes): nat {
    if s == [] then 0 else Value(s[..|s| - 1]) * 256 + s[|s| - 1]
  }

  function Power(width: nat): nat {
    if width == 0 then 1 else 256 * Power(width - 1)
  }

  lemma {:induction false} BigEndianRoundTrip(n: nat, width: nat)
    requires n < Power(width)
    ensures Value(BigEndian(n, width)) == n
  {
    if width > 0 {
      BigEndianRoundTrip(n / 256, width - 1);
      var r := BigEndian(n, width);
      assert r[..width - 1] == BigEndian(n / 256, width - 1);
    }
  }

  lemma {:induction false} ValueRoundTrip(s: Bytes)
    ensures Value(s) < Power(|s|) && BigEndian(Value(s), |s|) == s
  {
    if s != [] {
      var front := s[..|s| - 1];
      ValueRoundTrip(front);
      assert Value(s) / 256 == Value(front) && Value(s) % 256 == s[|s| - 1];
      assert s == front + [s[|s| - 1]];
    }
  }

  lemma {:induction false} PrefixCoversEveryBlob()
    ensures Power(PREFIX_WIDTH) == LENGTH_LIMIT
  {
    assert Power(4) == 0x1_0000_0000;
    assert Power(6) == 256 * (256 * Power(4));
    assert Power(8) == 256 * (256 * Power(6));
  }

  // ----- frames -----

  function Frame(value: Blob): Bytes {
    BigEndian(|value|, PREFIX_WIDTH) + value
  }

  /** Everything a digest has been fed after length-prefixing `values` in turn. */
  function Frames(values: seq<Blob>): Bytes {
    if values == [] then [] else Frame(values[0]) + Frames(values[1..])
  }

  /** A reader for framed streams; the source never needs one, its existence is the point. */
  function Unframe(s: Bytes): (r: Option<seq<Blob>>)
    decreases |s|
  {
    if s == [] then Some([])
    else if |s| < PREFIX_WIDTH then None
    else
      var n := Value(s[..PREFIX_WIDTH]);
      var rest := s[PREFIX_WIDTH..];
      if |rest| < n || n >= LENGTH_LIMIT then None
      else
        match Unframe(rest[n..])
        case None => None
        case Some(values) => Some([rest[..n]] + values)
  }

  lemma {:induction false} FramesDecode(values: seq<Blob>)
    ensures Unframe(Frames(values)) == Some(values)
  {
    hide Value, BigEndian;
    if values != [] {
      var value := values[0];
      var s := Frames(values);
      PrefixCoversEveryBlob();
      BigEndianRoundTrip(|value|, PREFIX_WIDTH);
      assert s[..PREFIX_WIDTH] == BigEndian(|value|, PREFIX_WIDTH);
      var rest := s[PREFIX_WIDTH..];
      assert rest == value + Frames(values[1..]);
      assert rest[..|value|] == value && rest[|value|..] == Frames(values[1..]);
      FramesDecode(values[1..]);
      assert values == [value] + values[1..];
    }
  }

  lemma {:induction false} FramesCons(value: Blob, values: seq<Blob>)
    ensures Frames([value] + values) == Frame(value) + Frames(values)
  {
    assert ([value] + values)[1..] == values;
  }

  lemma {:induction false} ThreePieces(s: Bytes, n: nat)
    requires PREFIX_WIDTH + n <= |s|
    ensures s[..PREFIX_WIDTH] + s[PREFIX_WIDTH..][..n] + s[PREFIX_WIDTH..][n..] == s
  {
  }

  lemma {:induction false} UnframeStep(s: Bytes)
    requires s != [] && Unframe(s).Some?
    ensures |s| >= PREFIX_WIDTH
    ensures var n := Value(s[..PREFIX_WIDTH]);
            var rest := s[PREFIX_WIDTH..];
            && n <= |rest| && n < LENGTH_LIMIT && Unframe(rest[n..]).Some?
            && Unframe(s).value == [rest[..n]] + Unframe(rest[n..]).value
  {
  }

  /** The reader accepts nothing but framed streams. */
  lemma {:induction false} DecodedIsFramed(s: Bytes)
    requires Unframe(s).Some?
    ensures Frames(Unframe(s).value) == s
    decreases |s|
  {
    if s != [] {
      UnframeStep(s);
      hide Value, BigEndian, Frames, Unframe;
      var rest, n := s[PREFIX_WIDTH..], Value(s[..PREFIX_WIDTH]);
      ValueRoundTrip(s[..PREFIX_WIDTH]);
      DecodedIsFramed(rest[n..]);
      FramesCons(rest[..n], Unframe(rest[n..]).value);
      ThreePieces(s, n);
    }
  }

  /** Lists of any arity are told apart by their frames. */
  lemma {:induction false} FramesInjective(a: seq<Blob>, b: seq<Blob>)
    requires Frames(a) == Frames(b)
    ensures a == b
  {
    FramesDecode(a);
    FramesDecode(b);
  }

  lemma {:induction false} Regroup<T>(x: seq<T>, y: seq<T>, z: seq<T>)
    ensures (x + y) + z == x + (y + z)
  {
  }

  lemma {:induction false} FramesAppend(a: seq<Blob>, b: seq<Blob>)
    ensures Frames(a + b) == Frames(a) + Frames(b)
  {
    if a == [] {
      assert a + b == b;
    } else {
      hide Frame, Frames;
      var front, rest := [a[0]], a[1..];
      calc {
        Frames(a + b);
        { assert a == front + rest; Regroup(front, rest, b); }
        Frames(front + (rest + b));
        { FramesCons(a[0], rest + b); }
        Frame(a[0]) + Frames(rest + b);
        { FramesAppend(rest, b); }
        Frame(a[0]) + (Frames(rest) + Frames(b));
        { Regroup(Frame(a[0]), Frames(rest), Frames(b)); }
        (Frame(a[0]) + Frames(rest)) + Frames(b);
        { FramesCons(a[0], rest); assert a == front + rest; }
        Frames(a) + Frames(b);
      }
    }
  }

  /** What a digest object has been fed so far. */
  class Sha {
    var fed: Bytes

    constructor ()
      ensures fed == []
    {
      fed := [];
    }

    method Update(chunk: Bytes)
      modifies this
      ensures fed == old(fed) + chunk
    {
      fed := fed + chunk;
    }
  }

  /** `_length_prefixed` */
  method LengthPrefixed(digest: Sha, value: Blob)
    modifies digest
    ensures digest.fed == old(digest.fed) + Frame(value)
  {
    digest.Update(BigEndian(|value|, PREFIX_WIDTH));
    digest.Update(value);
  }

  /** Feeds one list of values. */
  method FeedAll(digest: Sha, values: seq<Blob>)
    modifies digest
    ensures digest.fed == old(digest.fed) + Frames(values)
  {
    hide Frame;
    for i := 0 to |values|
      invariant digest.fed == old(digest.fed) + Frames(values[..i])
    {
      FramesAppend(values[..i], [values[i]]);
      assert values[..i + 1] == values[..i] + [values[i]];
      assert Frames([values[i]]) == Frame(values[i]) + Frames([]);
      LengthPrefixed(digest, values[i]);
    }
    assert values[..|values|] == values;
  }

  // ----- stable_identity -----

  /** `stable_identity`: a shortened identifier and the full key. */
  method StableIdentity(hash: Hash, values: seq<Blob>) returns (id: Bytes, key: Digest)
    ensures key == hash(Frames(values)) && id == key[..16]
  {
    var digest := new Sha();
    FeedAll(digest, values);
    assert digest.fed == Frames(values);
    key := hash(digest.fed);
    id := key[..16];
  }

  function StableKey(hash: Hash, values: seq<Blob>): Digest {
    hash(Frames(values))
  }

  /** Equal keys mean equal values, whatever the number of values on either side. */
  lemma {:induction false} StableKeyIdentifies(hash: Hash, a: seq<Blob>, b: seq<Blob>)
    requires Distinguishes(hash, {Frames(a), Frames(b)})
    ensures StableKey(hash, a) == StableKey(hash, b) <==> a == b
  {
    if StableKey(hash, a) == StableKey(hash, b) {
      FramesInjective(a, b);
    }
  }

  // ----- decimal numbers -----

  /** A number held in an integer column. */
  type Column = i: int | -0x8000_0000_0000_0000 <= i < 0x8000_0000_0000_0000

  function Digits(n: nat): (r: Bytes)
    ensures 0 < |r| <= n + 1 && forall d | d in r :: 48 <= d <= 57
  {
    if n < 10 then [48 + n] else Digits(n / 10) + [48 + n % 10]
  }

  function DigitsValue(s: Bytes): int {
    if s == [] then 0 else DigitsValue(s[..|s| - 1]) * 10 + s[|s| - 1] - 48
  }

  lemma {:induction false} DigitsRoundTrip(n: nat)
    ensures DigitsValue(Digits(n)) == n
  {
    var r := Digits(n);
    if n < 10 {
      assert r[..0] == [];
    } else {
      DigitsRoundTrip(n / 10);
      assert r[..|r| - 1] == Digits(n / 10);
    }
  }

  function Magnitude(i: int): nat {
    if i < 0 then -i else i
  }

  /** The numeral of any integer. */
  function Numeral(i: int): (r: Bytes)
    ensures 0 < |r| <= Magnitude(i) + 2
  {
    if i < 0 then [45] + Digits(-i) else Digits(i)
  }

  /** `str(i)`, as bytes. A numeral longer than a length prefix can say fits no memory. */
  function Decimal(i: int): Blob {
    if |Numeral(i)| < LENGTH_LIMIT then Numeral(i) else []
  }

  lemma {:induction false} SignShows(i: int)
    ensures Numeral(i)[0] == 45 <==> i < 0
  {
    assert Digits(Magnitude(i))[0] in Digits(Magnitude(i));
  }

  lemma {:induction false} NumeralInjective(i: int, j: int)
    requires Numeral(i) == Numeral(j)
    ensures i == j
  {
    DigitsRoundTrip(Magnitude(i));
    DigitsRoundTrip(Magnitude(j));
    SignShows(i);
    SignShows(j);
    if i < 0 {
      assert Numeral(i)[1..] == Digits(Magnitude(i)) && Numeral(j)[1..] == Digits(Magnitude(j));
    }
  }

  /** Numbers of columns are told apart by their text. */
  lemma {:induction false} DecimalInjective(i: Column, j: Column)
    requires Decimal(i) == Decimal(j)
    ensures i == j
  {
    NumeralInjective(i, j);
  }
}
