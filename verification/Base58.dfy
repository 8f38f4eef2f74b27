/** Base58 text of byte strings, and the did:key form of an Ed25519 key. */
module Base58 {
  import opened Values

  type Byte = b: int | 0 <= b < 256

  // -------------------------------------------------------------------- positional digits

  ghost predicate AreDigits(ds: seq<nat>, base: nat) {
    forall d :: d in ds ==> d < base
  }

  /** Value of a digit string, most significant digit first. */
  function Value(ds: seq<nat>, base: nat): nat {
    if ds == [] then 0 else Value(ds[..|ds| - 1], base) * base + ds[|ds| - 1]
  }

  /** Shortest digit string of a number: empty for zero, never starting with zero. */
  function Digits(n: nat, base: nat): seq<nat>
    requires base >= 2
  {
    if n == 0 then [] else Digits(n / base, base) + [n % base]
  }

  function LeadingZeros(ds: seq<nat>): nat {
    if ds == [] || ds[0] != 0 then 0 else 1 + LeadingZeros(ds[1..])
  }

  function Zeros(k: nat): seq<nat> {
    seq(k, _ => 0)
  }

  lemma ValueAppend(ds: seq<nat>, d: nat, base: nat)
    ensures Value(ds + [d], base) == Value(ds, base) * base + d
  {
  }

  lemma DivMod(n: nat, base: nat)
    requires base >= 2
    ensures n / base * base + n % base == n && 0 <= n % base < base
    ensures n > 0 ==> n / base < n
  {
  }

  lemma {:induction false} DigitsInRange(n: nat, base: nat)
    requires base >= 2
    ensures AreDigits(Digits(n, base), base)
  {
    if n > 0 {
      DivMod(n, base);
      DigitsInRange(n / base, base);
    }
  }

  lemma {:induction false} DigitsValue(n: nat, base: nat)
    requires base >= 2
    ensures Value(Digits(n, base), base) == n
  {
    if n > 0 {
      DivMod(n, base);
      DigitsValue(n / base, base);
      ValueAppend(Digits(n / base, base), n % base, base);
    }
  }

  lemma {:induction false} DigitsLead(n: nat, base: nat)
    requires base >= 2 && n > 0
    ensures Digits(n, base) != [] && Digits(n, base)[0] != 0
  {
    DivMod(n, base);
    if n / base > 0 {
      DigitsLead(n / base, base);
    } else {
      assert n / base * base == 0;
      assert Digits(n / base, base) == [];
    }
  }

  lemma DigitsFacts(n: nat, base: nat)
    requires base >= 2
    ensures AreDigits(Digits(n, base), base)
    ensures Value(Digits(n, base), base) == n
    ensures n > 0 ==> Digits(n, base) != [] && Digits(n, base)[0] != 0
  {
    DigitsInRange(n, base);
    DigitsValue(n, base);
    if n > 0 { DigitsLead(n, base); }
  }

  lemma {:induction false} ValuePositive(ds: seq<nat>, base: nat)
    requires base >= 2 && ds != [] && ds[0] != 0
    ensures Value(ds, base) > 0
  {
    if |ds| > 1 {
      ValuePositive(ds[..|ds| - 1], base);
      assert Value(ds[..|ds| - 1], base) * base >= base;
    }
  }

  lemma DigitsAppend(q: nat, d: nat, base: nat)
    requires base >= 2 && d < base && q * base + d > 0
    ensures Digits(q * base + d, base) == Digits(q, base) + [d]
  {
    QuotientOf(q, d, base);
  }

  /** A digit string without leading zeros is the shortest one of its value. */
  lemma {:induction false} ShortestIsDigits(ds: seq<nat>, base: nat)
    requires base >= 2 && AreDigits(ds, base) && (ds != [] ==> ds[0] != 0)
    ensures Digits(Value(ds, base), base) == ds
  {
    if ds != [] {
      var front, d := ds[..|ds| - 1], ds[|ds| - 1];
      assert d in ds && front + [d] == ds;
      forall x | x in front ensures x < base { assert x in ds; }
      ShortestIsDigits(front, base);
      ValuePositive(ds, base);
      DigitsAppend(Value(front, base), d, base);
    }
  }

  lemma QuotientOf(q: nat, d: nat, base: nat)
    requires base >= 2 && d < base
    ensures (q * base + d) / base == q && (q * base + d) % base == d
  {
    var n := q * base + d;
    DivMod(n, base);
    var k := n / base;
    assert (q - k) * base == n % base - d;
    if q > k { MulAtLeast(q - k, base); }
    if q < k { MulAtLeast(k - q, base); }
  }

  lemma MulAtLeast(k: nat, base: nat)
    requires k >= 1
    ensures k * base >= base
  {
  }

  lemma {:induction false} LeadingZerosSplit(ds: seq<nat>)
    ensures LeadingZeros(ds) <= |ds| && ds[..LeadingZeros(ds)] == Zeros(LeadingZeros(ds))
    ensures LeadingZeros(ds) < |ds| ==> ds[LeadingZeros(ds)] != 0
  {
    if ds != [] && ds[0] == 0 {
      LeadingZerosSplit(ds[1..]);
      var k := LeadingZeros(ds[1..]);
      assert ds[..k + 1] == [0] + ds[1..][..k];
    }
  }

  lemma {:induction false} ZerosLead(k: nat, ds: seq<nat>)
    requires ds != [] ==> ds[0] != 0
    ensures LeadingZeros(Zeros(k) + ds) == k
  {
    if k > 0 {
      assert (Zeros(k) + ds)[1..] == Zeros(k - 1) + ds;
      ZerosLead(k - 1, ds);
    } else {
      assert Zeros(k) + ds == ds;
    }
  }

  lemma {:induction false} ZerosAddNothing(k: nat, ds: seq<nat>, base: nat)
    ensures Value(Zeros(k) + ds, base) == Value(ds, base)
  {
    if ds != [] {
      assert (Zeros(k) + ds)[..k + |ds| - 1] == Zeros(k) + ds[..|ds| - 1];
      ZerosAddNothing(k, ds[..|ds| - 1], base);
    } else if k > 0 {
      assert Zeros(k) + ds == Zeros(k);
      assert Zeros(k)[..k - 1] == Zeros(k - 1) + ds;
      ZerosAddNothing(k - 1, ds, base);
    } else {
      assert Zeros(k) + ds == ds;
    }
  }

  /** Change of base that keeps the number of leading zeros. */
  function Convert(ds: seq<nat>, from: nat, to: nat): seq<nat>
    requires to >= 2
  {
    Zeros(LeadingZeros(ds)) + Digits(Value(ds, from), to)
  }

  lemma ConvertPadded(k: nat, rest: seq<nat>, from: nat, to: nat)
    requires to >= 2 && (rest != [] ==> rest[0] != 0)
    ensures Convert(Zeros(k) + rest, from, to) == Zeros(k) + Digits(Value(rest, from), to)
  {
    ZerosLead(k, rest);
    ZerosAddNothing(k, rest, from);
  }

  lemma ConvertInRange(ds: seq<nat>, from: nat, to: nat)
    requires to >= 2
    ensures AreDigits(Convert(ds, from, to), to)
  {
    DigitsInRange(Value(ds, from), to);
  }

  /** Converting there and back gives the same digits, leading zeros included. */
  lemma ConvertRoundTrip(ds: seq<nat>, from: nat, to: nat)
    requires from >= 2 && to >= 2 && AreDigits(ds, from)
    ensures AreDigits(Convert(ds, from, to), to)
    ensures Convert(Convert(ds, from, to), to, from) == ds
  {
    ConvertInRange(ds, from, to);
    LeadingZerosSplit(ds);
    var k := LeadingZeros(ds);
    var rest := ds[k..];
    var n := Value(rest, from);
    assert ds == Zeros(k) + rest;
    forall d | d in rest ensures d < from { assert d in ds; }
    ShortestIsDigits(rest, from);
    DigitsFacts(n, to);
    assert n == 0 ==> Digits(n, to) == [];
    ConvertPadded(k, rest, from, to);
    ConvertPadded(k, Digits(n, to), to, from);
  }

  // -------------------------------------------------------------------- the alphabet

  const ALPHABET := "123456789" + "ABCDEFGH" + "JKLMN" + "PQRSTUVWXYZ" + "abcdefghijk" + "mnopqrstuvwxyz"

  predicate InAlphabet(c: char) {
    '1' <= c <= '9' || 'A' <= c <= 'H' || 'J' <= c <= 'N' || 'P' <= c <= 'Z' || 'a' <= c <= 'k' || 'm' <= c <= 'z'
  }

  /** Position of a character in the alphabet. */
  function Index(c: char): nat
    requires InAlphabet(c)
  {
    if c <= '9' then c as int - '1' as int
    else if c <= 'H' then c as int - 'A' as int + 9
    else if c <= 'N' then c as int - 'J' as int + 17
    else if c <= 'Z' then c as int - 'P' as int + 22
    else if c <= 'k' then c as int - 'a' as int + 33
    else c as int - 'm' as int + 44
  }

  function Letter(i: nat): char
    requires i < 58
  {
    if i < 9 then (i + '1' as int) as char
    else if i < 17 then (i - 9 + 'A' as int) as char
    else if i < 22 then (i - 17 + 'J' as int) as char
    else if i < 33 then (i - 22 + 'P' as int) as char
    else if i < 44 then (i - 33 + 'a' as int) as char
    else (i - 44 + 'm' as int) as char
  }

  /** The alphabet, position by position, and its inverse. */
  lemma LetterIsAlphabet(i: nat)
    requires i < 58
    ensures |ALPHABET| == 58 && ALPHABET[i] == Letter(i)
    ensures InAlphabet(Letter(i)) && Index(Letter(i)) == i
  {
  }

  lemma IndexIsInverse(c: char)
    requires InAlphabet(c)
    ensures Index(c) < 58 && Letter(Index(c)) == c
  {
  }

  function Letters(ds: seq<nat>): string
    requires forall d :: d in ds ==> d < 58
  {
    seq(|ds|, i requires 0 <= i < |ds| => assert ds[i] in ds; Letter(ds[i]))
  }

  function Indices(s: string): seq<nat>
    requires forall c :: c in s ==> InAlphabet(c)
  {
    seq(|s|, i requires 0 <= i < |s| => Index(s[i]))
  }

  lemma LettersAreInAlphabet(ds: seq<nat>)
    requires forall d :: d in ds ==> d < 58
    ensures forall c :: c in Letters(ds) ==> InAlphabet(c)
    ensures Indices(Letters(ds)) == ds
  {
    forall i | 0 <= i < |ds| ensures InAlphabet(Letters(ds)[i]) && Index(Letters(ds)[i]) == ds[i] {
      assert ds[i] in ds;
      LetterIsAlphabet(ds[i]);
    }
  }

  lemma IndicesAreDigits(s: string)
    requires forall c :: c in s ==> InAlphabet(c)
    ensures AreDigits(Indices(s), 58) && Letters(Indices(s)) == s
  {
    forall i | 0 <= i < |s| ensures Index(s[i]) < 58 && Letter(Index(s[i])) == s[i] {
      IndexIsInverse(s[i]);
    }
  }

  // -------------------------------------------------------------------- encode and decode

  function Naturals(b: seq<Byte>): seq<nat> {
    seq(|b|, i requires 0 <= i < |b| => b[i])
  }

  function ByteAt(ds: seq<nat>, i: nat): Byte
    requires i < |ds| && forall d :: d in ds ==> d < 256
  {
    assert ds[i] in ds;
    ds[i]
  }

  function Bytes(ds: seq<nat>): seq<Byte>
    requires forall d :: d in ds ==> d < 256
  {
    seq(|ds|, i requires 0 <= i < |ds| => ByteAt(ds, i))
  }

  function Encode(b: seq<Byte>): string {
    ConvertRoundTrip(Naturals(b), 256, 58);
    Letters(Convert(Naturals(b), 256, 58))
  }

  /** None when some character is not in the alphabet. */
  function Decode(s: string): Option<seq<Byte>> {
    if exists c :: c in s && !InAlphabet(c) then None
    else
      IndicesAreDigits(s);
      ConvertRoundTrip(Indices(s), 58, 256);
      Some(Bytes(Convert(Indices(s), 58, 256)))
  }

  /** Encoding is over the alphabet, and decoding it returns the bytes, leading zeros included. */
  lemma DecodeEncode(b: seq<Byte>)
    ensures (forall c :: c in Encode(b) ==> InAlphabet(c)) && Decode(Encode(b)) == Some(b)
  {
    var ds := Naturals(b);
    ConvertRoundTrip(ds, 256, 58);
    LettersAreInAlphabet(Convert(ds, 256, 58));
    assert Bytes(ds) == b;
  }

  /** Every string over the alphabet is the encoding of what it decodes to. */
  lemma EncodeDecode(s: string)
    ensures Decode(s).Some? <==> forall c :: c in s ==> InAlphabet(c)
    ensures Decode(s).Some? ==> Encode(Decode(s).value) == s
  {
    if Decode(s).Some? {
      IndicesAreDigits(s);
      ConvertRoundTrip(Indices(s), 58, 256);
      assert Naturals(Decode(s).value) == Convert(Indices(s), 58, 256);
    }
  }

  // -------------------------------------------------------------------- the loops

  lemma LettersPrepend(r: nat, tail: seq<nat>)
    requires r < 58 && forall d :: d in tail ==> d < 58
    ensures Letters([r] + tail) == [ALPHABET[r]] + Letters(tail)
  {
  }

  /** Repeated division by 58, then one '1' for every leading zero byte. */
  method B58Encode(b: seq<Byte>) returns (text: string)
    ensures text == Encode(b)
  {
    var total := Value(Naturals(b), 256);
    var n := total;
    ghost var tail: seq<nat> := [];
    var out := "";
    while n > 0
      invariant Digits(total, 58) == Digits(n, 58) + tail
      invariant forall d :: d in tail ==> d < 58
      invariant out == Letters(tail)
    {
      var r := n % 58;
      LettersPrepend(r, tail);
      assert Digits(n, 58) + tail == Digits(n / 58, 58) + ([r] + tail);
      n := n / 58;
      tail := [r] + tail;
      out := [ALPHABET[r]] + out;
    }
    assert tail == Digits(total, 58);
    var pad := LeadingZeros(Naturals(b));
    ConvertRoundTrip(Naturals(b), 256, 58);
    PaddedLetters(pad, tail);
    text := seq(pad, _ => '1') + out;
  }

  lemma PaddedLetters(pad: nat, tail: seq<nat>)
    requires forall d :: d in tail ==> d < 58
    ensures seq(pad, _ => '1') + Letters(tail) == Letters(Zeros(pad) + tail)
  {
  }

  function BitLength(n: nat): nat {
    if n == 0 then 0 else 1 + BitLength(n / 2)
  }

  /** Big-endian bytes of a number that fits. */
  function ToBytes(n: nat, len: nat): seq<nat> {
    if len == 0 then [] else ToBytes(n / 256, len - 1) + [n % 256]
  }

  lemma BitLengthOfByte(n: nat)
    requires 0 < n < 256
    ensures 1 <= BitLength(n) <= 8
  {
    assert n / 2 < 128 && n / 2 / 2 < 64 && n / 2 / 2 / 2 < 32 && n / 2 / 2 / 2 / 2 < 16;
    assert n / 2 / 2 / 2 / 2 / 2 < 8 && n / 2 / 2 / 2 / 2 / 2 / 2 < 4 && n / 2 / 2 / 2 / 2 / 2 / 2 / 2 < 2;
    assert n / 2 / 2 / 2 / 2 / 2 / 2 / 2 / 2 == 0;
    assert BitLength(n / 2 / 2 / 2 / 2 / 2 / 2 / 2) <= 1;
    assert BitLength(n / 2 / 2 / 2 / 2 / 2 / 2) <= 2;
    assert BitLength(n / 2 / 2 / 2 / 2 / 2) <= 3;
    assert BitLength(n / 2 / 2 / 2 / 2) <= 4;
    assert BitLength(n / 2 / 2 / 2) <= 5;
    assert BitLength(n / 2 / 2) <= 6;
    assert BitLength(n / 2) <= 7;
  }

  lemma BitLengthQuarter(n: nat)
    requires n >= 4
    ensures BitLength(n) == 2 + BitLength(n / 4)
  {
    assert n / 2 / 2 == n / 4;
  }

  lemma BitLengthByByte(n: nat)
    requires n >= 256
    ensures BitLength(n) == 8 + BitLength(n / 256)
  {
    BitLengthQuarter(n);
    BitLengthQuarter(n / 4);
    BitLengthQuarter(n / 4 / 4);
    BitLengthQuarter(n / 4 / 4 / 4);
    assert n / 4 / 4 / 4 / 4 == n / 256;
  }

  /** As many bytes as the bit length needs are the shortest digit string. */
  lemma {:induction false} MinimalBytes(n: nat)
    ensures ToBytes(n, (BitLength(n) + 7) / 8) == Digits(n, 256)
  {
    if 0 < n < 256 {
      BitLengthOfByte(n);
      assert (BitLength(n) + 7) / 8 == 1;
      assert ToBytes(n, 1) == ToBytes(n / 256, 0) + [n % 256];
    } else if n >= 256 {
      BitLengthByByte(n);
      MinimalBytes(n / 256);
    }
  }

  lemma IndicesAppend(s: string, i: nat)
    requires i < |s| && (forall c :: c in s[..i] ==> InAlphabet(c)) && InAlphabet(s[i])
    ensures forall c :: c in s[..i + 1] ==> InAlphabet(c)
    ensures Value(Indices(s[..i + 1]), 58) == Value(Indices(s[..i]), 58) * 58 + Index(s[i])
  {
    assert s[..i + 1] == s[..i] + [s[i]];
    assert Indices(s[..i + 1]) == Indices(s[..i]) + [Index(s[i])];
    ValueAppend(Indices(s[..i]), Index(s[i]), 58);
  }

  /** Leading '1's of a text: the characters that stripping '1' from the left removes. */
  function LeadingOnes(s: string): nat {
    if s == "" || s[0] != '1' then 0 else 1 + LeadingOnes(s[1..])
  }

  lemma {:induction false} OnesAreZeros(s: string)
    requires forall c :: c in s ==> InAlphabet(c)
    ensures LeadingOnes(s) == LeadingZeros(Indices(s))
  {
    if s != "" {
      assert Indices(s)[1..] == Indices(s[1..]);
      OnesAreZeros(s[1..]);
    }
  }

  /** Digit by digit, then the minimal bytes, then one zero byte for every leading '1'. */
  method B58Decode(s: string) returns (r: Option<seq<Byte>>)
    ensures r == Decode(s)
  {
    var n := 0;
    for i := 0 to |s|
      invariant forall c :: c in s[..i] ==> InAlphabet(c)
      invariant n == Value(Indices(s[..i]), 58)
    {
      if !InAlphabet(s[i]) {
        return None;
      }
      IndicesAppend(s, i);
      n := n * 58 + Index(s[i]);
    }
    assert s[..|s|] == s;
    IndicesAreDigits(s);
    ConvertRoundTrip(Indices(s), 58, 256);
    MinimalBytes(n);
    OnesAreZeros(s);
    var body := if n != 0 then ToBytes(n, (BitLength(n) + 7) / 8) else [];
    r := Some(Bytes(Zeros(LeadingOnes(s)) + body));
  }

  // -------------------------------------------------------------------- did:key

  const MULTICODEC: seq<Byte> := [0xed, 0x01]

  const DID_PREFIX := "did:key:z"

  function DidKey(key: seq<Byte>): string {
    DID_PREFIX + Encode(MULTICODEC + key)
  }

  /** The part of an identifier before its first '#'. */
  function BeforeFragment(did: string): string {
    if did == "" || did[0] == '#' then "" else [did[0]] + BeforeFragment(did[1..])
  }

  function KeyOfDid(did: string): Option<seq<Byte>> {
    var bare := BeforeFragment(did);
    if !(DID_PREFIX <= bare) then None
    else
      var decoded := Decode(bare[|DID_PREFIX|..]);
      if decoded.None? || !(MULTICODEC <= decoded.value) then None else Some(decoded.value[|MULTICODEC|..])
  }

  lemma {:induction false} NoFragment(did: string, fragment: string)
    requires '#' !in did
    ensures BeforeFragment(did) == did && BeforeFragment(did + "#" + fragment) == did
  {
    if did == "" {
      assert did + "#" + fragment == ['#'] + fragment;
    } else {
      NoFragment(did[1..], fragment);
      assert (did + "#" + fragment)[1..] == did[1..] + "#" + fragment;
    }
  }

  lemma {:induction false} BeforeFragmentHasNone(did: string)
    ensures '#' !in BeforeFragment(did)
  {
    if did != "" && did[0] != '#' {
      BeforeFragmentHasNone(did[1..]);
    }
  }

  /** The did:key of every key decodes back to it, with or without a fragment. */
  lemma DidKeyRoundTrip(key: seq<Byte>, fragment: string)
    ensures KeyOfDid(DidKey(key)) == Some(key)
    ensures KeyOfDid(DidKey(key) + "#" + fragment) == Some(key)
  {
    var did := DidKey(key);
    DecodeEncode(MULTICODEC + key);
    assert '#' !in DID_PREFIX;
    NoFragment(did, fragment);
    assert did[|DID_PREFIX|..] == Encode(MULTICODEC + key);
    assert (MULTICODEC + key)[|MULTICODEC|..] == key;
  }

  /** An identifier that yields a key is, up to its fragment, the did:key of that key. */
  lemma DidKeyUnique(did: string)
    requires KeyOfDid(did).Some?
    ensures BeforeFragment(did) == DidKey(KeyOfDid(did).value)
  {
    var bare := BeforeFragment(did);
    var text := bare[|DID_PREFIX|..];
    EncodeDecode(text);
    var decoded := Decode(text).value;
    assert MULTICODEC + decoded[|MULTICODEC|..] == decoded;
    assert DID_PREFIX + text == bare;
  }

  // -------------------------------------------------------------- what the texts mean

  function Power(base: nat, n: nat): nat {
    if n == 0 then 1 else base * Power(base, n - 1)
  }

  lemma MoveOut(d: nat, p: nat, v: nat, base: nat, x: nat)
    ensures (d * p + v) * base + x == d * (base * p) + (v * base + x)
  {
  }

  /** The first digit counts with the highest power of the base. */
  lemma {:induction false} FirstDigitValue(ds: seq<nat>, base: nat)
    requires ds != []
    ensures Value(ds, base) == ds[0] * Power(base, |ds| - 1) + Value(ds[1..], base)
  {
    var n := |ds| - 1;
    if n == 0 {
      assert ds[..0] == [] && ds[1..] == [];
    } else {
      FirstDigitValue(ds[..n], base);
      assert ds[..n][1..] == ds[1..][..n - 1];
      MoveOut(ds[0], Power(base, n - 1), Value(ds[1..][..n - 1], base), base, ds[n]);
    }
  }

  /** A text writes the same number as the bytes it encodes, with a leading '1' for every leading zero byte. */
  lemma EncodeMeans(b: seq<Byte>)
    ensures forall c :: c in Encode(b) ==> InAlphabet(c)
    ensures Value(Indices(Encode(b)), 58) == Value(Naturals(b), 256)
    ensures LeadingOnes(Encode(b)) == LeadingZeros(Naturals(b))
  {
    var ds := Naturals(b);
    var k, n := LeadingZeros(ds), Value(ds, 256);
    DecodeEncode(b);
    ConvertRoundTrip(ds, 256, 58);
    LettersAreInAlphabet(Convert(ds, 256, 58));
    DigitsFacts(n, 58);
    ZerosAddNothing(k, Digits(n, 58), 58);
    ZerosLead(k, Digits(n, 58));
    OnesAreZeros(Encode(b));
  }

  /** The part before the fragment is what stands before the first '#', or everything. */
  lemma {:induction false} FragmentSplits(did: string)
    ensures var bare := BeforeFragment(did);
            bare <= did && '#' !in bare && (bare == did || did[|bare|] == '#')
  {
    if did != "" && did[0] != '#' {
      FragmentSplits(did[1..]);
    }
  }

  /** A did:key is "did:key:z" before the text of the two bytes ed 01 and the key; nothing else yields the key. */
  lemma DidKeyForm(did: string, key: seq<Byte>)
    ensures KeyOfDid(did) == Some(key) <==> BeforeFragment(did) == "did:key:z" + Encode([0xed, 0x01] + key)
  {
    var text := Encode([0xed, 0x01] + key);
    DecodeEncode([0xed, 0x01] + key);
    if KeyOfDid(did) == Some(key) {
      DidKeyUnique(did);
    }
    if BeforeFragment(did) == DID_PREFIX + text {
      assert BeforeFragment(did)[|DID_PREFIX|..] == text;
      assert (MULTICODEC + key)[|MULTICODEC|..] == key;
    }
  }
}
