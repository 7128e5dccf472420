/** The text forms the pipeline puts on the wire: hexadecimal identifiers and decimal numbers. */
module Texts {
  import opened Aggregates
  import opened Ledgers

  datatype Option<+T> = None | Some(value: T)

  // ---- Hexadecimal ----

  function HexDigit(n: nat): char
    requires n < 16
  {
    "0123456789abcdef"[n]
  }

  /** Both cases are read, as Go's hex decoder does. */
  function FromHexDigit(c: char): Option<nat> {
    if '0' <= c <= '9' then Some((c - '0') as nat)
    else if 'a' <= c <= 'f' then Some((c - 'a') as nat + 10)
    else if 'A' <= c <= 'F' then Some((c - 'A') as nat + 10)
    else None
  }

  function LowerHex(c: char): char {
    if 'A' <= c <= 'F' then 'a' + (c - 'A') else c
  }

  function Hex(b: seq<uint8>): (s: string)
    ensures |s| == 2 * |b|
  {
    if b == [] then "" else [HexDigit(b[0] / 16), HexDigit(b[0] % 16)] + Hex(b[1..])
  }

  function FromHex(s: string): Option<seq<uint8>> {
    if s == "" then Some([])
    else if |s| == 1 then None
    else
      var hi, lo, rest := FromHexDigit(s[0]), FromHexDigit(s[1]), FromHex(s[2..]);
      if hi.None? || lo.None? || rest.None? then None
      else Some([hi.value * 16 + lo.value] + rest.value)
  }

  lemma DigitRoundTrip(n: nat)
    requires n < 16
    ensures FromHexDigit(HexDigit(n)) == Some(n)
  {
  }

  /** Only digits and the letters a to f. */
  ghost predicate IsLowerHex(s: string) {
    forall k :: 0 <= k < |s| ==> '0' <= s[k] <= '9' || 'a' <= s[k] <= 'f'
  }

  lemma {:induction false} HexIsLowerHex(b: seq<uint8>)
    ensures IsLowerHex(Hex(b))
  {
    if b != [] {
      HexIsLowerHex(b[1..]);
    }
  }

  lemma FromHexPair(c: char, d: char, hi: nat, lo: nat, rest: string)
    requires FromHexDigit(c) == Some(hi) && FromHexDigit(d) == Some(lo) && hi < 16 && lo < 16
    ensures FromHex([c, d] + rest) ==
            if FromHex(rest).None? then None else Some([hi * 16 + lo] + FromHex(rest).value)
  {
    assert ([c, d] + rest)[2..] == rest;
  }

  lemma FromHexOfByte(x: uint8, rest: string)
    ensures FromHex([HexDigit(x / 16), HexDigit(x % 16)] + rest) ==
            if FromHex(rest).None? then None else Some([x] + FromHex(rest).value)
  {
    DigitRoundTrip(x / 16);
    DigitRoundTrip(x % 16);
    FromHexPair(HexDigit(x / 16), HexDigit(x % 16), x / 16, x % 16, rest);
  }

  lemma {:induction false} HexRoundTrip(b: seq<uint8>)
    ensures FromHex(Hex(b)) == Some(b)
  {
    if b != [] {
      HexRoundTrip(b[1..]);
      FromHexOfByte(b[0], Hex(b[1..]));
      assert b == [b[0]] + b[1..];
    }
  }

  lemma HexInjective(a: seq<uint8>, b: seq<uint8>)
    requires Hex(a) == Hex(b)
    ensures a == b
  {
    HexRoundTrip(a);
    HexRoundTrip(b);
  }

  lemma {:induction false} HexOfBoth(a: seq<uint8>, b: seq<uint8>)
    ensures Hex(a + b) == Hex(a) + Hex(b)
  {
    if a == [] {
      assert a + b == b;
    } else {
      HexOfBoth(a[1..], b);
      HexOfMore(a[0], a[1..], b);
      assert a == [a[0]] + a[1..];
    }
  }

  lemma HexOfMore(x: uint8, rest: seq<uint8>, b: seq<uint8>)
    requires Hex(rest + b) == Hex(rest) + Hex(b)
    ensures Hex([x] + rest + b) == Hex([x] + rest) + Hex(b)
  {
    HexOfFirst(x, rest + b);
    HexOfFirst(x, rest);
    Together([x], rest, b);
    Together([HexDigit(x / 16), HexDigit(x % 16)], Hex(rest), Hex(b));
  }

  lemma Together<T>(a: seq<T>, b: seq<T>, c: seq<T>)
    ensures a + (b + c) == a + b + c
  {
  }

  /** Decoding succeeds on exactly the even-length strings of hex digits, and yields half as many bytes. */
  lemma {:induction false} FromHexDomain(s: string)
    ensures FromHex(s).Some? <==> |s| % 2 == 0 && forall k :: 0 <= k < |s| ==> FromHexDigit(s[k]).Some?
    ensures FromHex(s).Some? ==> |FromHex(s).value| * 2 == |s|
    decreases |s|
  {
    if |s| >= 2 {
      var t := s[2..];
      FromHexDomain(t);
      assert forall k :: 0 <= k < |t| ==> t[k] == s[k + 2];
      assert forall k :: 2 <= k < |s| ==> s[k] == t[k - 2];
    }
  }

  /** ParseVoterID: exactly 32 hex characters. */
  function ParseVoterId(s: string): Option<VoterId> {
    if |s| != 32 then None
    else
      var b := FromHex(s);
      if b.None? || |b.value| != 16 then None else Some(b.value)
  }

  /** ParseVoterID undoes Hex, so two voters never share a text form. */
  lemma VoterIdRoundTrip(v: VoterId)
    ensures ParseVoterId(Hex(v)) == Some(v)
  {
    HexRoundTrip(v);
  }

  /** The hex digits of either case. */
  ghost predicate IsHex(s: string) {
    forall k :: 0 <= k < |s| ==> '0' <= s[k] <= '9' || 'a' <= s[k] <= 'f' || 'A' <= s[k] <= 'F'
  }

  lemma HexDigitsExactly(c: char)
    ensures FromHexDigit(c).Some? <==> '0' <= c <= '9' || 'a' <= c <= 'f' || 'A' <= c <= 'F'
  {
  }

  /** ParseVoterID accepts the strings of 32 hex digits, of either case, and nothing else. */
  lemma ParseVoterIdDomain(s: string)
    ensures ParseVoterId(s).Some? <==> |s| == 32 && IsHex(s)
  {
    FromHexDomain(s);
    forall k | 0 <= k < |s| ensures FromHexDigit(s[k]).Some? <==> IsHex([s[k]]) {
      HexDigitsExactly(s[k]);
      assert [s[k]][0] == s[k];
    }
    assert IsHex(s) <==> forall k :: 0 <= k < |s| ==> IsHex([s[k]]);
  }

  lemma LowersDigit(c: char)
    requires FromHexDigit(c).Some?
    ensures FromHexDigit(c).value < 16 && HexDigit(FromHexDigit(c).value) == LowerHex(c)
  {
  }

  function Lower(s: string): string {
    if s == "" then "" else [LowerHex(s[0])] + Lower(s[1..])
  }

  lemma Nibbles(hi: nat, lo: nat)
    requires hi < 16 && lo < 16
    ensures (hi * 16 + lo) / 16 == hi && (hi * 16 + lo) % 16 == lo
  {
  }

  lemma FromHexStep(s: string)
    requires s != "" && FromHex(s).Some?
    ensures |s| >= 2 && FromHexDigit(s[0]).Some? && FromHexDigit(s[1]).Some? && FromHex(s[2..]).Some?
    ensures FromHex(s).value == [FromHexDigit(s[0]).value * 16 + FromHexDigit(s[1]).value] + FromHex(s[2..]).value
  {
  }

  /** The byte that two digits denote prints as those digits in lower case. */
  lemma ByteLowers(c: char, d: char)
    requires FromHexDigit(c).Some? && FromHexDigit(d).Some?
    ensures var x := FromHexDigit(c).value * 16 + FromHexDigit(d).value;
            x < 256 && HexDigit(x / 16) == LowerHex(c) && HexDigit(x % 16) == LowerHex(d)
  {
    LowersDigit(c);
    LowersDigit(d);
    Nibbles(FromHexDigit(c).value, FromHexDigit(d).value);
  }

  lemma HexOfFirst(x: uint8, rest: seq<uint8>)
    ensures Hex([x] + rest) == [HexDigit(x / 16), HexDigit(x % 16)] + Hex(rest)
  {
    assert ([x] + rest)[1..] == rest;
  }

  lemma TwoFirst(a: char, b: char, rest: string)
    ensures [a] + ([b] + rest) == [a, b] + rest
  {
  }

  lemma LowerStep(s: string)
    requires |s| >= 2
    ensures Lower(s) == [LowerHex(s[0]), LowerHex(s[1])] + Lower(s[2..])
  {
    var t := s[1..];
    assert t[1..] == s[2..];
    TwoFirst(LowerHex(s[0]), LowerHex(s[1]), Lower(s[2..]));
  }

  /** What it reads back is the same text in lower case, so the two spellings of one voter meet. */
  lemma {:induction false} FromHexLowers(s: string)
    requires FromHex(s).Some?
    ensures Hex(FromHex(s).value) == Lower(s)
    decreases |s|
  {
    if s != "" {
      FromHexStep(s);
      ByteLowers(s[0], s[1]);
      HexOfFirst(FromHexDigit(s[0]).value * 16 + FromHexDigit(s[1]).value, FromHex(s[2..]).value);
      LowerStep(s);
      FromHexLowers(s[2..]);
    }
  }

  // ---- Decimal ----

  ghost predicate IsDigits(s: string) {
    forall k :: 0 <= k < |s| ==> '0' <= s[k] <= '9'
  }

  /** Minimal decimal text of a number, as strconv prints it. */
  function Decimal(n: nat): (s: string)
    ensures |s| > 0
  {
    if n < 10 then ['0' + n as char] else Decimal(n / 10) + ['0' + (n % 10) as char]
  }

  /** The number a digit string denotes; anything else, and the empty string, is refused. */
  function ParseDigits(s: string): Option<nat> {
    if s == "" || !('0' <= s[|s| - 1] <= '9') then None
    else
      var last := (s[|s| - 1] - '0') as nat;
      if |s| == 1 then Some(last)
      else
        var init := ParseDigits(s[..|s| - 1]);
        if init.None? then None else Some(init.value * 10 + last)
  }

  /** strconv.ParseUint(s, 10, 8). */
  function ParseUint8(s: string): Option<uint8> {
    var n := ParseDigits(s);
    if n.None? || n.value > 255 then None else Some(n.value)
  }

  /** strconv.ParseInt(s, 10, 64): an optional sign, digits, and the range of int64. */
  function ParseInt64(s: string): Option<int> {
    if s != "" && s[0] == '-' then
      var n := ParseDigits(s[1..]);
      if n.None? || n.value > 0x8000_0000_0000_0000 then None else Some(0 - n.value as int)
    else
      var n := ParseDigits(if s != "" && s[0] == '+' then s[1..] else s);
      if n.None? || n.value > 0x7fff_ffff_ffff_ffff then None else Some(n.value)
  }

  lemma {:induction false} DecimalRoundTrip(n: nat)
    ensures ParseDigits(Decimal(n)) == Some(n)
  {
    if n >= 10 {
      DecimalRoundTrip(n / 10);
      assert Decimal(n)[..|Decimal(n)| - 1] == Decimal(n / 10);
    }
  }

  /** Digits and nothing else are a number, the last digit counting once and the others ten times. */
  lemma {:induction false} ParseDigitsDomain(s: string)
    ensures ParseDigits(s).Some? <==> s != "" && IsDigits(s)
    ensures ParseDigits(s).Some? && |s| > 1 ==>
              && ParseDigits(s[..|s| - 1]).Some?
              && ParseDigits(s).value == 10 * ParseDigits(s[..|s| - 1]).value + (s[|s| - 1] as int - 48)
  {
    if |s| > 1 {
      var init := s[..|s| - 1];
      ParseDigitsDomain(init);
      assert forall k :: 0 <= k < |init| ==> s[k] == init[k];
    }
  }

  /** A byte in decimal: digits that denote at most 255, and no sign. */
  lemma Uint8Exactly(s: string)
    ensures ParseUint8(s).Some? <==>
            s != "" && IsDigits(s) && ParseDigits(s).Some? && ParseDigits(s).value <= 255
    ensures ParseUint8(s).Some? ==> ParseUint8(s).value == ParseDigits(s).value
  {
    ParseDigitsDomain(s);
  }

  /** A 64-bit number: digits, with a sign or without, whose value fits, and nothing else. */
  lemma Int64Exactly(d: string, n: nat)
    requires ParseDigits(d) == Some(n)
    ensures ParseInt64(d) == if n < 0x8000_0000_0000_0000 then Some(n) else None
    ensures ParseInt64("+" + d) == ParseInt64(d)
    ensures ParseInt64("-" + d) == if n <= 0x8000_0000_0000_0000 then Some(-(n as int)) else None
  {
    ParseDigitsDomain(d);
    assert ("+" + d)[1..] == d && ("-" + d)[1..] == d;
  }

  lemma Int64Domain(s: string)
    requires ParseInt64(s).Some?
    ensures s != ""
    ensures var d := if s[0] == '+' || s[0] == '-' then s[1..] else s; d != "" && IsDigits(d)
  {
    ParseDigitsDomain(s);
    ParseDigitsDomain("");
    if s != "" {
      ParseDigitsDomain(s[1..]);
    }
  }

  lemma {:induction false} DecimalIsDigits(n: nat)
    ensures IsDigits(Decimal(n))
  {
    if n >= 10 {
      DecimalIsDigits(n / 10);
    }
  }

  lemma DecimalInjective(m: nat, n: nat)
    requires Decimal(m) == Decimal(n)
    ensures m == n
  {
    DecimalRoundTrip(m);
    DecimalRoundTrip(n);
  }

  /** An option index survives the trip through a counter field, and its text is never the ballots field. */
  lemma FieldRoundTrip(i: uint8)
    ensures ParseUint8(Decimal(i)) == Some(i)
    ensures Decimal(i) != "b"
  {
    DecimalRoundTrip(i);
  }

  lemma UnsignedInt64(s: string, n: nat)
    requires s != "" && IsDigits(s) && ParseDigits(s) == Some(n) && n <= 0x7fff_ffff_ffff_ffff
    ensures ParseInt64(s) == Some(n)
  {
  }

  /** A counter value within int64 survives HGETALL. */
  lemma CounterRoundTrip(n: nat)
    requires n <= 0x7fff_ffff_ffff_ffff
    ensures ParseInt64(Decimal(n)) == Some(n)
  {
    DecimalRoundTrip(n);
    DecimalIsDigits(n);
    UnsignedInt64(Decimal(n), n);
  }

  // ---- Normalisation ----

  predicate IsSpace(c: char) {
    c == ' ' || 9 as char <= c <= 13 as char
  }

  function TrimLeft(s: string): string {
    if s != "" && IsSpace(s[0]) then TrimLeft(s[1..]) else s
  }

  function TrimRight(s: string): string {
    if s != "" && IsSpace(s[|s| - 1]) then TrimRight(s[..|s| - 1]) else s
  }

  function Trim(s: string): string {
    TrimRight(TrimLeft(s))
  }

  function LowerAscii(s: string): string {
    if s == "" then ""
    else (if 'A' <= s[0] <= 'Z' then ['a' + (s[0] - 'A')] else [s[0]]) + LowerAscii(s[1..])
  }

  /** A space, a tab, a line end or a page feed. */
  ghost predicate BlankChar(c: char) {
    c == ' ' || c == '\t' || c == '\n' || c == '\r' || c as int == 11 || c as int == 12
  }

  ghost predicate Blank(s: string) {
    forall k :: 0 <= k < |s| ==> BlankChar(s[k])
  }

  lemma SpaceIsBlank(c: char)
    ensures IsSpace(c) <==> BlankChar(c)
  {
  }

  lemma {:induction false} TrimLeftCuts(s: string) returns (i: nat)
    ensures i <= |s| && TrimLeft(s) == s[i..] && Blank(s[..i]) && (i < |s| ==> !BlankChar(s[i]))
  {
    i := 0;
    if s != "" {
      SpaceIsBlank(s[0]);
      if IsSpace(s[0]) {
        var rest := TrimLeftCuts(s[1..]);
        i := rest + 1;
        MoreInFront(s, i);
      }
    }
  }

  lemma MoreInFront(s: string, i: nat)
    requires 1 <= i <= |s|
    ensures s[1..][i - 1..] == s[i..]
    ensures BlankChar(s[0]) && Blank(s[1..][..i - 1]) ==> Blank(s[..i])
    ensures i < |s| ==> s[1..][i - 1] == s[i]
  {
    assert forall k :: 1 <= k < i ==> s[k] == s[1..][..i - 1][k - 1];
  }

  lemma {:induction false} TrimRightCuts(s: string) returns (j: nat)
    ensures j <= |s| && TrimRight(s) == s[..j] && Blank(s[j..]) && (j > 0 ==> !BlankChar(s[j - 1]))
  {
    j := |s|;
    if s != "" {
      SpaceIsBlank(s[|s| - 1]);
      if IsSpace(s[|s| - 1]) {
        j := TrimRightCuts(s[..|s| - 1]);
        MoreBehind(s, j);
      }
    }
  }

  lemma MoreBehind(s: string, j: nat)
    requires j < |s|
    ensures s[..|s| - 1][..j] == s[..j]
    ensures BlankChar(s[|s| - 1]) && Blank(s[..|s| - 1][j..]) ==> Blank(s[j..])
  {
    var init := s[..|s| - 1];
    assert forall k :: 0 <= k < |s| - 1 - j ==> s[j..][k] == init[j..][k];
    assert s[j..][|s| - 1 - j] == s[|s| - 1];
  }

  /** Trimming cuts off exactly the blanks at both ends: what is left is blank at neither. */
  lemma TrimCutsBlanks(s: string) returns (i: nat, j: nat)
    ensures i <= j <= |s| && Trim(s) == s[i..j] && Blank(s[..i]) && Blank(s[j..])
    ensures i < j ==> !BlankChar(s[i]) && !BlankChar(s[j - 1])
  {
    i := TrimLeftCuts(s);
    var n := TrimRightCuts(s[i..]);
    j := i + n;
    assert s[i..][..n] == s[i..j] && s[i..][n..] == s[j..];
  }

  /** Lower-casing keeps every character except the capital letters, which move up by 32. */
  lemma {:induction false} LowersCapitals(s: string, k: nat)
    requires k < |s|
    ensures |LowerAscii(s)| == |s|
    ensures LowerAscii(s)[k] as int == s[k] as int + (if 'A' <= s[k] <= 'Z' then 32 else 0)
    decreases |s|
  {
    if k > 0 {
      LowersCapitals(s[1..], k - 1);
    } else if |s| > 1 {
      LowersCapitals(s[1..], 0);
    }
  }
}
