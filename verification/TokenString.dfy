/** Generation of token strings (internal/token/token.go): 32 random bytes as a base62
    number of 43 digits behind a type prefix. */
module TokenString {
  import opened Prelude

  /** `n` letters in code order. */
  function Letters(first: char, n: nat): string
    requires first as int + n <= 128
  {
    seq(n, i requires 0 <= i < n => (first as int + i) as char)
  }

  /** The ten digits, then the capital letters, then the small letters. */
  const ALPHABET := Letters('0', 10) + Letters('A', 26) + Letters('a', 26)
  const TOKEN_BYTES := 32
  const TOKEN_DIGITS := 43

  datatype TokenType = Proxy | Agent

  function PrefixForType(tt: TokenType): string {
    match tt
    case Proxy => "ghx_"
    case Agent => "gha_"
  }

  predicate HasPrefix(s: string, prefix: string) {
    |prefix| <= |s| && s[..|prefix|] == prefix
  }

  function TypeFromPrefix(s: string): Option<TokenType> {
    if HasPrefix(s, PrefixForType(Proxy)) then Some(Proxy)
    else if HasPrefix(s, PrefixForType(Agent)) then Some(Agent)
    else None
  }

  lemma TypeIsPrefix(s: string)
    ensures TypeFromPrefix(s) == Some(Proxy) <==> "ghx_" <= s
    ensures TypeFromPrefix(s) == Some(Agent) <==> "gha_" <= s
  {
    if "gha_" <= s {
      assert s[2] == 'a';
    }
  }

  // ----- Numbers and their digits -----

  function Pow(b: nat, e: nat): nat {
    if e == 0 then 1 else b * Pow(b, e - 1)
  }

  /** big.Int.SetBytes: big-endian. */
  function FromBytes(b: Bytes): nat {
    if b == [] then 0 else FromBytes(b[..|b| - 1]) * 256 + b[|b| - 1] as nat
  }

  predicate IsDigit(c: char) {
    '0' <= c <= '9' || 'A' <= c <= 'Z' || 'a' <= c <= 'z'
  }

  function DigitValue(c: char): (d: nat)
    requires IsDigit(c)
    ensures d < 62
  {
    if c <= '9' then (c - '0') as nat else if c <= 'Z' then 10 + (c - 'A') as nat else 36 + (c - 'a') as nat
  }

  predicate Digits(s: string) {
    forall i :: 0 <= i < |s| ==> IsDigit(s[i])
  }

  /** The number that a digit string denotes, most significant digit first. */
  function Decode(s: string): nat
    requires Digits(s)
  {
    if s == [] then 0 else Decode(s[..|s| - 1]) * 62 + DigitValue(s[|s| - 1])
  }

  /** The same, least significant digit first. */
  function DecodeReversed(s: string): nat
    requires Digits(s)
  {
    if s == [] then 0 else DigitValue(s[0]) + 62 * DecodeReversed(s[1..])
  }

  lemma AlphabetInPlace(d: nat)
    requires d < 62
    ensures |ALPHABET| == 62 && IsDigit(ALPHABET[d]) && DigitValue(ALPHABET[d]) == d
  {
    if d < 10 {
      assert ALPHABET[d] == Letters('0', 10)[d];
    } else if d < 36 {
      assert ALPHABET[d] == Letters('A', 26)[d - 10];
    } else {
      assert ALPHABET[d] == Letters('a', 26)[d - 36];
    }
  }

  /** The digits in the order of their values. */
  lemma AlphabetIs()
    ensures ALPHABET == "0123456789" + "ABCDEFGHIJKLMNOPQRSTUVWXYZ" + "abcdefghijklmnopqrstuvwxyz"
  {}

  lemma {:induction false} PowAdd(b: nat, m: nat, n: nat)
    ensures Pow(b, m + n) == Pow(b, m) * Pow(b, n)
  {
    if m > 0 {
      PowAdd(b, m - 1, n);
      assert Pow(b, m + n) == b * Pow(b, m - 1 + n);
    }
  }

  lemma BytesPower()
    ensures Pow(256, TOKEN_BYTES) == 0x1_0000000000000000_0000000000000000_0000000000000000_0000000000000000
  {
    PowAdd(256, 4, 4);
    PowAdd(256, 8, 8);
    PowAdd(256, 16, 16);
    assert Pow(256, 4) == 0x1_0000_0000;
  }

  /** The digits suffice: 256^32 <= 62^43. */
  lemma DigitsFit()
    ensures Pow(256, TOKEN_BYTES) <= Pow(62, TOKEN_DIGITS)
  {
    BytesPower();
    PowAdd(62, 5, 5);
    PowAdd(62, 10, 10);
    PowAdd(62, 20, 20);
    PowAdd(62, 40, 3);
    assert Pow(62, 5) == 916132832 && Pow(62, 3) == 238328;
  }

  lemma {:induction false} FromBytesBound(b: Bytes)
    ensures FromBytes(b) < Pow(256, |b|)
  {
    if b != [] {
      FromBytesBound(b[..|b| - 1]);
    }
  }

  lemma {:induction false} FromBytesInjective(a: Bytes, b: Bytes)
    requires |a| == |b| && FromBytes(a) == FromBytes(b)
    ensures a == b
  {
    if a != [] {
      var n := |a| - 1;
      assert FromBytes(a[..n]) * 256 + a[n] as nat == FromBytes(b[..n]) * 256 + b[n] as nat;
      FromBytesInjective(a[..n], b[..n]);
      assert a == a[..n] + [a[n]] && b == b[..n] + [b[n]];
    }
  }

  // ----- The loops -----

  lemma {:induction false} DecodeReversedAppend(s: string, c: char)
    requires Digits(s) && IsDigit(c)
    ensures DecodeReversed(s + [c]) == DecodeReversed(s) + Pow(62, |s|) * DigitValue(c)
  {
    if s == [] {
      assert s + [c] == [c];
    } else {
      assert (s + [c])[1..] == s[1..] + [c];
      DecodeReversedAppend(s[1..], c);
      assert Pow(62, |s|) == 62 * Pow(62, |s| - 1);
      Rearrange(DecodeReversed(s[1..]), Pow(62, |s| - 1), DigitValue(c));
    }
  }

  lemma Rearrange(a: nat, p: nat, d: nat)
    ensures 62 * (a + p * d) == 62 * a + (62 * p) * d
  {}

  function Reversed(s: string): (r: string)
    ensures |r| == |s|
  {
    seq(|s|, i requires 0 <= i < |s| => s[|s| - 1 - i])
  }

  lemma {:induction false} DecodeOfReversed(s: string)
    requires Digits(s)
    ensures Digits(Reversed(s)) && Decode(Reversed(s)) == DecodeReversed(s)
  {
    if s != [] {
      var r := Reversed(s);
      assert r[..|r| - 1] == Reversed(s[1..]);
      DecodeOfReversed(s[1..]);
    }
  }

  method ReverseInPlace(a: array<char>)
    modifies a
    ensures a[..] == Reversed(old(a[..]))
  {
    var i, j := 0, a.Length - 1;
    while i < j
      invariant 0 <= i <= j + 1 <= a.Length && i + j == a.Length - 1
      invariant forall k :: 0 <= k < i || j < k < a.Length ==> a[k] == old(a[..])[a.Length - 1 - k]
      invariant forall k :: i <= k <= j ==> a[k] == old(a[..])[k]
    {
      a[i], a[j] := a[j], a[i];
      i, j := i + 1, j - 1;
    }
  }

  /** The divide loop: `digits` are peeled off `total`, and `n` is what is left of it. */
  ghost predicate Peeled(digits: string, n: nat, total: nat) {
    Digits(digits) && |digits| <= TOKEN_DIGITS && DecodeReversed(digits) + Pow(62, |digits|) * n == total
  }

  lemma PeelOne(digits: string, n: nat, total: nat)
    requires Peeled(digits, n, total) && n > 0 && total < Pow(62, TOKEN_DIGITS)
    ensures |ALPHABET| == 62
    ensures Peeled(digits + [ALPHABET[n % 62]], n / 62, total)
  {
    var p := Pow(62, |digits|);
    assert p * n >= p by { Multiple(p, n); }
    AlphabetInPlace(n % 62);
    DecodeReversedAppend(digits, ALPHABET[n % 62]);
    PeelSum(p, n);
  }

  lemma Multiple(p: nat, n: nat)
    requires n > 0
    ensures p * n >= p
  {}

  lemma PeelSum(p: nat, n: nat)
    ensures p * (n % 62) + (62 * p) * (n / 62) == p * n
  {
    assert n == 62 * (n / 62) + n % 62;
  }

  lemma PadOne(digits: string, total: nat)
    requires Peeled(digits, 0, total) && |digits| < TOKEN_DIGITS
    ensures |ALPHABET| == 62 && Peeled(digits + [ALPHABET[0]], 0, total)
  {
    AlphabetInPlace(0);
    DecodeReversedAppend(digits, ALPHABET[0]);
  }

  /** 43 digits behind the prefix, that denote the random bytes read as a number. */
  ghost predicate IsTokenOf(token: string, tt: TokenType, random: Bytes) {
    && HasPrefix(token, PrefixForType(tt))
    && var digits := token[|PrefixForType(tt)|..];
       |digits| == TOKEN_DIGITS && Digits(digits) && Decode(digits) == FromBytes(random)
  }

  lemma PrefixTells(tt: TokenType, digits: string)
    ensures var s := PrefixForType(tt) + digits;
            HasPrefix(s, PrefixForType(tt)) && s[|PrefixForType(tt)|..] == digits && TypeFromPrefix(s) == Some(tt)
  {
    var s := PrefixForType(tt) + digits;
    assert s[..4] == PrefixForType(tt);
    assert PrefixForType(Proxy)[2] != PrefixForType(Agent)[2];
  }

  /** The divide loop and the padding. */
  method LeastDigitFirst(total: nat) returns (result: string)
    requires total < Pow(62, TOKEN_DIGITS)
    ensures Digits(result) && |result| == TOKEN_DIGITS && DecodeReversed(result) == total
  {
    var n := total;
    result := "";
    while n > 0
      invariant Peeled(result, n, total)
    {
      PeelOne(result, n, total);
      var mod := n % 62;
      n := n / 62;
      result := result + [ALPHABET[mod]];
    }
    while |result| < TOKEN_DIGITS
      invariant Peeled(result, 0, total)
    {
      PadOne(result, total);
      result := result + [ALPHABET[0]];
    }
  }

  /** `random` is what crypto/rand returned. */
  method GenerateToken(tt: TokenType, random: Bytes) returns (token: string)
    requires |random| == 32
    ensures IsTokenOf(token, tt, random) && TypeFromPrefix(token) == Some(tt)
    ensures |token| == 47 && token[..4] == match tt { case Proxy => "ghx_" case Agent => "gha_" }
  {
    FromBytesBound(random);
    DigitsFit();
    var result := LeastDigitFirst(FromBytes(random));
    var a := new char[|result|](i requires 0 <= i < |result| => result[i]);
    assert a[..] == result;
    ReverseInPlace(a);
    DecodeOfReversed(result);
    PrefixTells(tt, a[..]);
    token := PrefixForType(tt) + a[..];
  }

  // ----- Distinct random bytes give distinct tokens -----

  lemma SplitDigit(x: nat, d: nat, y: nat, e: nat)
    requires d < 62 && e < 62 && x * 62 + d == y * 62 + e
    ensures x == y && d == e
  {}

  lemma DigitValueInjective(c: char, d: char)
    requires IsDigit(c) && IsDigit(d) && DigitValue(c) == DigitValue(d)
    ensures c == d
  {}

  /** A digit string of given length is determined by its number. */
  lemma {:induction false} DecodeInjective(s: string, t: string)
    requires |s| == |t| && Digits(s) && Digits(t) && Decode(s) == Decode(t)
    ensures s == t
  {
    if s != "" {
      var n := |s| - 1;
      SplitDigit(Decode(s[..n]), DigitValue(s[n]), Decode(t[..n]), DigitValue(t[n]));
      DigitValueInjective(s[n], t[n]);
      DecodeInjective(s[..n], t[..n]);
      assert s == s[..n] + [s[n]] && t == t[..n] + [t[n]];
    }
  }

  /** The token is a function of type and bytes, and an injective one. */
  lemma TokensAreDistinct(s: string, t: string, st: TokenType, tt: TokenType, a: Bytes, b: Bytes)
    requires |a| == |b| == TOKEN_BYTES && IsTokenOf(s, st, a) && IsTokenOf(t, tt, b)
    ensures s == t <==> st == tt && a == b
  {
    if s == t {
      assert s[3] == t[3] && PrefixForType(st)[2] == s[2] && PrefixForType(tt)[2] == t[2];
      FromBytesInjective(a, b);
    }
    if st == tt && a == b {
      var p := |PrefixForType(st)|;
      DecodeInjective(s[p..], t[p..]);
      assert s == s[..p] + s[p..] && t == t[..p] + t[p..];
    }
  }
}
