/** The motion report: printed by motion_server.c as a:l:r, parsed by MotionPack.java. */
module MotionText {
  import opened Bytes
  import opened Options

  // ---- Decimal numbers

  predicate IsDigit(c: char) {
    '0' <= c <= '9'
  }

  function Digit(d: nat): (c: char)
    requires d < 10
    ensures IsDigit(c) && c as int - '0' as int == d
  {
    ('0' as int + d) as char
  }

  /** printf of an unsigned number. */
  function Digits(n: nat): (s: string)
    ensures s != "" && forall i :: 0 <= i < |s| ==> IsDigit(s[i])
  {
    if n < 10 then [Digit(n)] else Digits(n / 10) + [Digit(n % 10)]
  }

  /** printf of a long. */
  function Print(v: int): (s: string)
    ensures s != "" && forall i :: 0 <= i < |s| ==> IsDigit(s[i]) || s[i] == '-'
  {
    if v < 0 then "-" + Digits(-v) else Digits(v)
  }

  predicate AllDigits(s: string) {
    s != "" && forall i :: 0 <= i < |s| ==> IsDigit(s[i])
  }

  function ValueOf(s: string): (v: int)
    requires forall i :: 0 <= i < |s| ==> IsDigit(s[i])
    ensures v >= 0
  {
    if s == "" then 0
    else
      assert IsDigit(s[|s| - 1]);
      10 * ValueOf(s[..|s| - 1]) + (s[|s| - 1] as int - '0' as int)
  }

  predicate InInt(v: int) {
    -0x8000_0000 <= v < 0x8000_0000
  }

  /** Integer.parseInt; None stands for NumberFormatException. */
  function ParseInt(s: string): Option<int> {
    if s == "" then None
    else
      var signed := s[0] == '-' || s[0] == '+';
      var digits := if signed then s[1..] else s;
      if !AllDigits(digits) then None
      else
        var v: int := if s[0] == '-' then -ValueOf(digits) else ValueOf(digits);
        if InInt(v) then Some(v) else None
  }

  /** What parseInt takes for v: at most one sign, then at least one digit, and a value in the range of int. */
  predicate Denotes(s: string, v: int) {
    InInt(v) && s != "" &&
    if s[0] == '-' then AllDigits(s[1..]) && v == -ValueOf(s[1..])
    else if s[0] == '+' then AllDigits(s[1..]) && v == ValueOf(s[1..])
    else AllDigits(s) && v == ValueOf(s)
  }

  lemma ParseIntIff(s: string, v: int)
    ensures ParseInt(s) == Some(v) <==> Denotes(s, v)
  {
    assert s != "" && !(s[0] == '-' || s[0] == '+') ==> s[0..] == s;
  }

  lemma {:induction false} ValueOfDigits(n: nat)
    ensures ValueOf(Digits(n)) == n
  {
    if n < 10 {
      assert [Digit(n)][..0] == "";
    } else {
      ValueOfDigits(n / 10);
      assert Digits(n)[..|Digits(n)| - 1] == Digits(n / 10);
    }
  }

  lemma ParseUnsigned(n: nat)
    ensures ParseInt(Digits(n)) == if InInt(n) then Some(n) else None
  {
    ValueOfDigits(n);
    var s := Digits(n);
    assert IsDigit(s[0]) && AllDigits(s);
  }

  lemma ParseSigned(v: int)
    requires v < 0
    ensures ParseInt("-" + Digits(-v)) == if InInt(v) then Some(v) else None
  {
    ValueOfDigits(-v);
    var s := "-" + Digits(-v);
    assert s[0] == '-' && s[1..] == Digits(-v) && AllDigits(s[1..]);
  }

  /** Printing and parsing are inverse exactly on the ints. */
  lemma ParsePrint(v: int)
    ensures ParseInt(Print(v)) == if InInt(v) then Some(v) else None
  {
    if v < 0 {
      ParseSigned(v);
    } else {
      ParseUnsigned(v);
    }
  }

  function Pow10(k: nat): nat {
    if k == 0 then 1 else 10 * Pow10(k - 1)
  }

  lemma {:induction false} DigitsLength(n: nat, k: nat)
    requires k > 0
    ensures |Digits(n)| <= k <==> n < Pow10(k)
  {
    if k == 1 {
      assert Pow10(1) == 10 * Pow10(0);
    } else if n < 10 {
      Pow10Positive(k - 1);
    } else {
      DigitsLength(n / 10, k - 1);
    }
  }

  lemma {:induction false} Pow10Positive(k: nat)
    ensures Pow10(k) >= 1
  {
    if k > 0 {
      Pow10Positive(k - 1);
    }
  }

  lemma PrintLength(v: int)
    requires InInt(v)
    ensures |Print(v)| <= 11
  {
    assert Pow10(10) == 10 * Pow10(9) && Pow10(9) == 10 * Pow10(8) && Pow10(8) == 10 * Pow10(7);
    assert Pow10(7) == 10 * Pow10(6) && Pow10(6) == 10 * Pow10(5) && Pow10(5) == 10 * Pow10(4);
    assert Pow10(4) == 10 * Pow10(3) && Pow10(3) == 10 * Pow10(2) && Pow10(2) == 10 * Pow10(1) && Pow10(1) == 10 * Pow10(0);
    DigitsLength(if v < 0 then -v else v, 10);
  }

  // ---- Strings

  /** String.trim: characters up to the blank are removed at both ends. */
  function TrimStart(s: string): string {
    if s != "" && s[0] <= ' ' then TrimStart(s[1..]) else s
  }

  function TrimEnd(s: string): string {
    if s != "" && s[|s| - 1] <= ' ' then TrimEnd(s[..|s| - 1]) else s
  }

  function Trim(s: string): string {
    TrimEnd(TrimStart(s))
  }

  lemma {:induction false} TrimStartBlank(a: string, t: string)
    requires (forall i :: 0 <= i < |a| ==> a[i] <= ' ') && (t != "" ==> t[0] > ' ')
    ensures TrimStart(a + t) == t
  {
    if a == "" {
      assert a + t == t;
    } else {
      TrimStartBlank(a[1..], t);
      assert (a + t)[1..] == a[1..] + t;
    }
  }

  lemma {:induction false} TrimEndBlank(t: string, b: string)
    requires (forall i :: 0 <= i < |b| ==> b[i] <= ' ') && (t != "" ==> t[|t| - 1] > ' ')
    ensures TrimEnd(t + b) == t
  {
    if b == "" {
      assert t + b == t;
    } else {
      TrimEndBlank(t, b[..|b| - 1]);
      assert (t + b)[..|t + b| - 1] == t + b[..|b| - 1];
    }
  }

  /** Of a text between blanks, trim leaves the text. */
  lemma TrimBetween(a: string, t: string, b: string)
    requires forall i :: 0 <= i < |a| ==> a[i] <= ' '
    requires forall i :: 0 <= i < |b| ==> b[i] <= ' '
    requires t != "" && t[0] > ' ' && t[|t| - 1] > ' '
    ensures Trim(a + (t + b)) == t
  {
    TrimStartBlank(a, t + b);
    TrimEndBlank(t, b);
  }

  predicate IsSpace(c: char) {
    c == ' ' || '\t' <= c <= '\r'
  }

  /** replaceAll("\\s+", "") */
  function NoSpaces(s: string): string {
    if s == "" then "" else (if IsSpace(s[0]) then "" else [s[0]]) + NoSpaces(s[1..])
  }

  /** The position of the first colon, the length if there is none. */
  function NextColon(s: string): (k: nat)
    ensures k <= |s| && (k < |s| ==> s[k] == ':')
    ensures forall i :: 0 <= i < k ==> s[i] != ':'
  {
    if s == "" || s[0] == ':' then 0 else 1 + NextColon(s[1..])
  }

  /** The tokens of StringTokenizer with the colon as delimiter. */
  function Tokens(s: string): seq<string>
    decreases |s|
  {
    if s == "" then []
    else if s[0] == ':' then Tokens(s[1..])
    else [s[..NextColon(s)]] + Tokens(s[NextColon(s)..])
  }

  function Nuls(k: nat): (s: string)
    ensures |s| == k && forall i :: 0 <= i < k ==> s[i] == '\0'
  {
    seq(k, i => '\0')
  }

  lemma TrimNuls(s: string, k: nat)
    requires s != "" && s[0] > ' ' && s[|s| - 1] > ' '
    ensures Trim(s + Nuls(k)) == s
  {
    TrimBetween("", s, Nuls(k));
    assert "" + (s + Nuls(k)) == s + Nuls(k);
  }

  lemma {:induction false} NoSpacesToRemove(s: string)
    requires forall i :: 0 <= i < |s| ==> !IsSpace(s[i])
    ensures NoSpaces(s) == s
  {
    if s != "" {
      NoSpacesToRemove(s[1..]);
      assert s == [s[0]] + s[1..];
    }
  }

  predicate NoColon(s: string) {
    forall i :: 0 <= i < |s| ==> s[i] != ':'
  }

  lemma FirstToken(a: string, rest: string)
    requires a != "" && NoColon(a)
    ensures Tokens(a + ":" + rest) == [a] + Tokens(rest)
  {
    var s := a + ":" + rest;
    assert s[0] == a[0] && s[|a|] == ':';
    var k := NextColon(s);
    assert forall i :: 0 <= i < |a| ==> s[i] == a[i];
    assert k == |a| && s[..k] == a && s[k..] == ":" + rest;
    assert s[k..][1..] == rest;
  }

  lemma OnlyToken(a: string)
    requires a != "" && NoColon(a)
    ensures Tokens(a) == [a]
  {
    assert NextColon(a) == |a|;
    assert a[..|a|] == a && a[|a|..] == "";
  }

  // ---- The report

  function Message(a: int, l: int, r: int): string {
    Print(a) + ":" + Print(l) + ":" + Print(r)
  }

  /** The numbers in the tokens, None for the exception of a token that is no int or of a fourth token. */
  function ParseAll(tokens: seq<string>): Option<seq<int>> {
    if tokens == [] then Some([]) else Joined(ParseInt(Trim(tokens[0])), ParseAll(tokens[1..]))
  }

  function Joined(first: Option<int>, rest: Option<seq<int>>): Option<seq<int>> {
    if first.Some? && rest.Some? then Some([first.value] + rest.value) else None
  }

  /** Three ints, zero where there are fewer tokens; a fourth is out of the array's bounds. */
  function Times(tokens: seq<string>): Option<seq<int>> {
    var times := ParseAll(tokens);
    if times.Some? && |times.value| <= 3 then Some(times.value + seq(3 - |times.value|, j => 0)) else None
  }

  /** getTimes on the text it cuts out of the buffer. */
  function ParseTimes(text: string): Option<seq<int>> {
    Times(Tokens(NoSpaces(text)))
  }

  lemma {:induction false} ParseAllIff(tokens: seq<string>)
    ensures ParseAll(tokens).Some? <==> forall i :: 0 <= i < |tokens| ==> ParseInt(Trim(tokens[i])).Some?
    ensures ParseAll(tokens).Some? ==>
              && |ParseAll(tokens).value| == |tokens|
              && forall i :: 0 <= i < |tokens| ==> ParseInt(Trim(tokens[i])) == Some(ParseAll(tokens).value[i])
  {
    if tokens != [] {
      var rest := tokens[1..];
      ParseAllIff(rest);
      assert forall i :: 0 < i < |tokens| ==> tokens[i] == rest[i - 1];
      assert forall i :: 0 <= i < |rest| ==> rest[i] == tokens[i + 1];
    }
  }

  /** getTimes succeeds exactly for at most three tokens, all of them ints, and returns them in order, followed by zeros. */
  lemma TimesIff(tokens: seq<string>)
    ensures Times(tokens).Some? <==> |tokens| <= 3 && forall i :: 0 <= i < |tokens| ==> ParseInt(Trim(tokens[i])).Some?
    ensures Times(tokens).Some? ==>
              && |Times(tokens).value| == 3
              && forall i :: 0 <= i < 3 ==>
                   if i < |tokens| then ParseInt(Trim(tokens[i])) == Some(Times(tokens).value[i]) else Times(tokens).value[i] == 0
  {
    ParseAllIff(tokens);
  }

  /** A report fits the 36 bytes that getTimes looks at, with room to spare. */
  lemma MessageFits(a: int, l: int, r: int)
    requires InInt(a) && InInt(l) && InInt(r)
    ensures |Message(a, l, r)| <= 35
  {
    PrintLength(a);
    PrintLength(l);
    PrintLength(r);
  }

  lemma TokensOfThree(x: string, y: string, z: string)
    requires x != "" && y != "" && z != "" && NoColon(x) && NoColon(y) && NoColon(z)
    ensures Tokens(x + ":" + (y + ":" + z)) == [x, y, z]
  {
    FirstToken(x, y + ":" + z);
    FirstToken(y, z);
    OnlyToken(z);
  }

  lemma PrintIsPlain(v: int)
    ensures forall i :: 0 <= i < |Print(v)| ==> Print(v)[i] > ' ' && !IsSpace(Print(v)[i]) && Print(v)[i] != ':'
  {
  }

  lemma ParsePadded(v: int, k: nat)
    ensures ParseInt(Trim(Print(v) + Nuls(k))) == if InInt(v) then Some(v) else None
  {
    PrintIsPlain(v);
    TrimNuls(Print(v), k);
    ParsePrint(v);
  }

  lemma ParseThree(tokens: seq<string>, x: Option<int>, y: Option<int>, z: Option<int>)
    requires |tokens| == 3
    requires ParseInt(Trim(tokens[0])) == x && ParseInt(Trim(tokens[1])) == y && ParseInt(Trim(tokens[2])) == z
    ensures ParseAll(tokens) ==
            if x.Some? && y.Some? && z.Some? then Some([x.value, y.value, z.value]) else None
  {
    var two := tokens[1..];
    var one := two[1..];
    assert two[0] == tokens[1] && one[0] == tokens[2] && one[1..] == [];
    assert ParseAll(one) == Joined(z, ParseAll(one[1..])) == Joined(z, Some([]));
    assert ParseAll(two) == Joined(y, ParseAll(one));
    assert ParseAll(tokens) == Joined(x, ParseAll(two));
    if x.Some? && y.Some? && z.Some? {
      assert [x.value] + ([y.value] + ([z.value] + [])) == [x.value, y.value, z.value];
    }
  }

  /** No blank and no colon inside the padded numbers, so the text is cut where the printer put the colons. */
  lemma CutMessage(a: int, l: int, r: int, k: nat)
    ensures Tokens(NoSpaces(Message(a, l, r) + Nuls(k))) == [Print(a), Print(l), Print(r) + Nuls(k)]
  {
    var x, y, z := Print(a), Print(l), Print(r) + Nuls(k);
    var text := x + ":" + (y + ":" + z);
    assert Message(a, l, r) + Nuls(k) == text;
    PrintIsPlain(a);
    PrintIsPlain(l);
    PrintIsPlain(r);
    NoSpacesInText(x, y, z);
    TokensOfThree(x, y, z);
  }

  predicate Plain(s: string) {
    forall i :: 0 <= i < |s| ==> !IsSpace(s[i])
  }

  lemma NoSpacesInText(x: string, y: string, z: string)
    requires Plain(x) && Plain(y) && Plain(z)
    ensures NoSpaces(x + ":" + (y + ":" + z)) == x + ":" + (y + ":" + z)
  {
    PlainAppend(y, z);
    PlainAppend(x, y + ":" + z);
    NoSpacesToRemove(x + ":" + (y + ":" + z));
  }

  lemma PlainAppend(x: string, y: string)
    requires Plain(x) && Plain(y)
    ensures Plain(x + ":" + y)
  {
    var s := x + ":" + y;
    forall i | 0 <= i < |s|
      ensures !IsSpace(s[i])
    {
      if i < |x| {
        assert s[i] == x[i];
      } else if i == |x| {
        assert s[i] == ':';
      } else {
        assert s[i] == y[i - |x| - 1];
      }
    }
  }

  function IfInt(v: int): Option<int> {
    if InInt(v) then Some(v) else None
  }

  lemma ParseBare(v: int)
    ensures ParseInt(Trim(Print(v))) == IfInt(v)
  {
    assert Print(v) + Nuls(0) == Print(v);
    ParsePadded(v, 0);
  }

  lemma TimesOfThree(tokens: seq<string>, a: int, l: int, r: int)
    requires |tokens| == 3
    requires ParseInt(Trim(tokens[0])) == IfInt(a)
    requires ParseInt(Trim(tokens[1])) == IfInt(l)
    requires ParseInt(Trim(tokens[2])) == IfInt(r)
    ensures Times(tokens) == if InInt(a) && InInt(l) && InInt(r) then Some([a, l, r]) else None
  {
    ParseThree(tokens, IfInt(a), IfInt(l), IfInt(r));
    if InInt(a) && InInt(l) && InInt(r) {
      assert ParseAll(tokens) == Some([a, l, r]);
      assert [a, l, r] + seq(0, j => 0) == [a, l, r];
    }
  }

  /** What is printed as a:l:r, followed by any number of NULs, is parsed back to a, l and r if all three are
      ints, and ends in an exception otherwise. */
  lemma ParseMessage(a: int, l: int, r: int, k: nat)
    ensures ParseTimes(Message(a, l, r) + Nuls(k)) ==
            if InInt(a) && InInt(l) && InInt(r) then Some([a, l, r]) else None
  {
    CutMessage(a, l, r, k);
    ParsePadded(r, k);
    ParseBare(a);
    ParseBare(l);
    TimesOfThree(Tokens(NoSpaces(Message(a, l, r) + Nuls(k))), a, l, r);
  }

  // ---- What does not matter in a report

  lemma Associative(x: string, y: string, z: string)
    ensures (x + y) + z == x + (y + z)
  {
  }

  lemma FirstOfTwo(x: string, y: string)
    requires x != ""
    ensures (x + y)[0] == x[0] && (x + y)[1..] == x[1..] + y
  {
  }

  lemma {:induction false} NoSpacesAppend(x: string, y: string)
    ensures NoSpaces(x + y) == NoSpaces(x) + NoSpaces(y)
  {
    if x == "" {
      assert x + y == y;
    } else {
      FirstOfTwo(x, y);
      NoSpacesAppend(x[1..], y);
      Associative(if IsSpace(x[0]) then "" else [x[0]], NoSpaces(x[1..]), NoSpaces(y));
    }
  }

  lemma {:induction false} NoSpacesBlank(s: string)
    requires forall i :: 0 <= i < |s| ==> IsSpace(s[i])
    ensures NoSpaces(s) == ""
  {
    if s != "" {
      NoSpacesBlank(s[1..]);
    }
  }

  /** Colons separate, and separate nothing else: the tokens of two texts with a colon between them. */
  lemma {:induction false} TokensAppend(x: string, y: string)
    ensures Tokens(x + ":" + y) == Tokens(x) + Tokens(y)
    decreases |x|
  {
    var s := x + ":" + y;
    if x == "" {
      assert s[1..] == y;
    } else if x[0] == ':' {
      assert s[1..] == x[1..] + ":" + y;
      TokensAppend(x[1..], y);
    } else if NoColon(x) {
      FirstToken(x, y);
      OnlyToken(x);
    } else {
      var k := NextColon(x);
      var a, rest := x[..k], x[k + 1..];
      assert x == a + ":" + rest;
      assert s == a + ":" + (rest + ":" + y);
      FirstToken(a, rest);
      FirstToken(a, rest + ":" + y);
      TokensAppend(rest, y);
    }
  }

  lemma BlanksGo(x: string, blanks: string, y: string)
    requires forall i :: 0 <= i < |blanks| ==> IsSpace(blanks[i])
    ensures NoSpaces(x + (blanks + y)) == NoSpaces(x + y)
  {
    NoSpacesAppend(blanks, y);
    NoSpacesAppend(x, blanks + y);
    NoSpacesAppend(x, y);
    NoSpacesBlank(blanks);
  }

  /** The tokens that getTimes sees in two texts with a colon between them. */
  lemma PartsOfReport(x: string, y: string)
    ensures Tokens(NoSpaces(x + ":" + y)) == Tokens(NoSpaces(x)) + Tokens(NoSpaces(y))
  {
    ColonStays(x, y);
    TokensAppend(NoSpaces(x), NoSpaces(y));
  }

  lemma PartBeforeColon(x: string)
    ensures Tokens(NoSpaces(x + ":")) == Tokens(NoSpaces(x))
  {
    PartsOfReport(x, "");
    assert x + ":" + "" == x + ":";
  }

  lemma PartAfterColon(x: string)
    ensures Tokens(NoSpaces(":" + x)) == Tokens(NoSpaces(x))
  {
    PartsOfReport("", x);
    assert "" + ":" + x == ":" + x;
  }

  /** Blanks anywhere in a report and further colons beside a colon do not change what is parsed. */
  lemma BlanksAndColons(x: string, blanks: string, y: string)
    requires forall i :: 0 <= i < |blanks| ==> IsSpace(blanks[i])
    ensures ParseTimes(x + (blanks + y)) == ParseTimes(x + y)
    ensures ParseTimes(x + ":" + (":" + y)) == ParseTimes(x + ":" + y)
    ensures ParseTimes(":" + x) == ParseTimes(x) == ParseTimes(x + ":")
  {
    BlanksGo(x, blanks, y);
    PartsOfReport(x, ":" + y);
    PartsOfReport(x, y);
    PartAfterColon(y);
    PartAfterColon(x);
    PartBeforeColon(x);
  }

  lemma ColonStays(x: string, y: string)
    ensures NoSpaces(x + ":" + y) == NoSpaces(x) + ":" + NoSpaces(y)
  {
    NoSpacesAppend(x + ":", y);
    NoSpacesAppend(x, ":");
    NoSpacesToRemove(":");
  }

  // ---- The buffers of MotionPack

  const HEAD_SIZE := 58
  const TEXT_OFFSET := 64
  const BUFFER_SIZE := 100
  const LENGTH_OFFSET := 31

  /** Java's (char) of a signed byte. */
  function CharOf(b: Byte): char {
    if b < 128 then b as char else (0xFF00 + b) as char
  }

  /** The cast extends the sign: the char is the signed byte modulo 2^16, and only the bytes below 128 give ASCII. */
  lemma CharOfByte(b: Byte)
    ensures var signed := if b < 128 then b else b - 256;
            (CharOf(b) as int - signed) % 0x1_0000 == 0
    ensures CharOf(b) < 128 as char <==> b < 128
  {
  }

  function Chars(bs: seq<Byte>): (s: string)
    ensures |s| == |bs| && forall i :: 0 <= i < |s| ==> s[i] == CharOf(bs[i])
  {
    seq(|bs|, i requires 0 <= i < |bs| => CharOf(bs[i]))
  }

  /** The char array of getTimes: the bytes from 64 on, and up to six more characters that stay NUL; an exception for a
      buffer too short for the array's length. */
  function TimeText(buffer: seq<Byte>): Option<string> {
    if |buffer| < HEAD_SIZE then None
    else if |buffer| < TEXT_OFFSET then Some(Nuls(|buffer| - HEAD_SIZE))
    else Some(Chars(buffer[TEXT_OFFSET..]) + Nuls(TEXT_OFFSET - HEAD_SIZE))
  }

  method TimeData(buffer: array<Byte>) returns (text: Option<string>)
    ensures text == TimeText(buffer[..])
  {
    if buffer.Length < HEAD_SIZE {
      return None;
    }
    var timeData := new char[buffer.Length - HEAD_SIZE](i => '\0');
    var i := TEXT_OFFSET;
    while i < buffer.Length
      invariant TEXT_OFFSET <= i && (i <= buffer.Length || i == TEXT_OFFSET)
      invariant forall j :: 0 <= j < i - TEXT_OFFSET ==> timeData[j] == CharOf(buffer[TEXT_OFFSET + j])
      invariant forall j :: i - TEXT_OFFSET <= j < timeData.Length ==> timeData[j] == '\0'
    {
      timeData[i - TEXT_OFFSET] := CharOf(buffer[i]);
      i := i + 1;
    }
    if buffer.Length >= TEXT_OFFSET {
      assert timeData[..] == Chars(buffer[..][TEXT_OFFSET..]) + Nuls(TEXT_OFFSET - HEAD_SIZE);
    } else {
      assert timeData[..] == Nuls(buffer.Length - HEAD_SIZE);
    }
    text := Some(timeData[..]);
  }

  /** The token loop of getTimes: three ints, zero where there are fewer tokens. */
  method ParseTokens(tokens: seq<string>) returns (r: Option<seq<int>>)
    ensures r == Times(tokens)
  {
    var timeBuffer := [0, 0, 0];
    var i: nat := 0;
    ghost var all := ParseAll(tokens);
    assert tokens[0..] == tokens && Prepend([], all) == all && timeBuffer[..0] == [];
    while i < |tokens|
      invariant i <= |tokens| && i <= 3 && |timeBuffer| == 3
      invariant forall j :: i <= j < 3 ==> timeBuffer[j] == 0
      invariant all == Prepend(timeBuffer[..i], ParseAll(tokens[i..]))
      decreases |tokens| - i
    {
      var n := ParseInt(Trim(tokens[i]));
      ParseOne(timeBuffer[..i], tokens[i..]);
      if n.None? || i == 3 {
        return None;
      }
      assert tokens[i..][1..] == tokens[i + 1..];
      assert timeBuffer[i := n.value][..i + 1] == timeBuffer[..i] + [n.value];
      timeBuffer := timeBuffer[i := n.value];
      i := i + 1;
    }
    assert all == Some(timeBuffer[..i] + []);
    assert timeBuffer == timeBuffer[..i] + [] + seq(3 - i, j => 0);
    r := Some(timeBuffer);
  }

  ghost function Prepend(done: seq<int>, rest: Option<seq<int>>): (r: Option<seq<int>>)
    ensures done == [] ==> r == rest
  {
    if rest.None? then None
    else
      assert done == [] ==> done + rest.value == rest.value;
      Some(done + rest.value)
  }

  lemma ParseOne(done: seq<int>, tokens: seq<string>)
    requires tokens != []
    ensures Prepend(done, ParseAll(tokens)) ==
            if ParseInt(Trim(tokens[0])).Some?
            then Prepend(done + [ParseInt(Trim(tokens[0])).value], ParseAll(tokens[1..]))
            else None
  {
    var first, rest := ParseInt(Trim(tokens[0])), ParseAll(tokens[1..]);
    if first.Some? && rest.Some? {
      assert done + ([first.value] + rest.value) == done + [first.value] + rest.value;
    }
  }

  /** getTimes on the whole buffer. */
  function TimesIn(buffer: seq<Byte>): Option<seq<int>> {
    var text := TimeText(buffer);
    if text.None? then None else ParseTimes(text.value)
  }

  method GetTimes(buffer: array<Byte>) returns (r: Option<seq<int>>)
    ensures r == TimesIn(buffer[..])
    ensures r.Some? ==> |r.value| == 3
  {
    var times := TimeData(buffer);
    if times.None? {
      return None;
    }
    r := ParseTokens(Tokens(NoSpaces(times.value)));
  }

  /** The round trip through the receiver's 100-byte buffer: three ints printed from byte 64 on, NULs after them. */
  lemma MotionRoundTrip(a: int, l: int, r: int, buffer: seq<Byte>)
    requires InInt(a) && InInt(l) && InInt(r)
    requires |buffer| == BUFFER_SIZE && Holds(Chars(buffer[TEXT_OFFSET..]), Message(a, l, r))
    ensures TimesIn(buffer) == Some([a, l, r])
  {
    var body, m := Chars(buffer[TEXT_OFFSET..]), Message(a, l, r);
    SpaceAfter(body, m, TEXT_OFFSET - HEAD_SIZE);
    ParseMessage(a, l, r, |body| - |m| + (TEXT_OFFSET - HEAD_SIZE));
  }

  lemma SpaceAfter(space: string, text: string, k: nat)
    requires Holds(space, text)
    ensures space + Nuls(k) == text + Nuls(|space| - |text| + k)
  {
  }

  /** The text at the start of the space, NULs up to its end. */
  predicate Holds(space: string, text: string) {
    text <= space && forall i :: |text| <= i < |space| ==> space[i] == '\0'
  }

  // ---- Content-Length

  const STATUS := "HTTP/1.0 200 OK\nContent-Length:"
  const KIND := "\nContent-Type: text/plain\n\n"

  /** The response of serve_client to a request it understands. */
  function Response(msg: string): string {
    STATUS + (Digits(|msg|) + (KIND + msg))
  }

  /** getTimeSize: three characters from position 31. */
  method GetTimeSize(buffer: array<Byte>) returns (r: Option<int>)
    ensures r == SizeAt(Chars(buffer[..]))
  {
    if buffer.Length < LENGTH_OFFSET + 3 {
      return None;
    }
    var b := new char[3];
    for i := 0 to b.Length
      invariant forall j :: 0 <= j < i ==> b[j] == CharOf(buffer[LENGTH_OFFSET + j])
    {
      b[i] := CharOf(buffer[i + LENGTH_OFFSET]);
    }
    assert b[..] == Chars(buffer[..])[LENGTH_OFFSET..LENGTH_OFFSET + 3];
    r := ParseInt(Trim(b[..]));
  }

  /** The int found there, None for one of the two exceptions. */
  function SizeAt(response: string): Option<int> {
    if |response| < LENGTH_OFFSET + 3 then None else ParseInt(Trim(response[LENGTH_OFFSET..LENGTH_OFFSET + 3]))
  }

  /** What getTimeSize cuts out is the start of the printed length and of what follows it. */
  lemma CutLength(msg: string)
    ensures |Response(msg)| >= LENGTH_OFFSET + 3
    ensures Response(msg)[LENGTH_OFFSET..LENGTH_OFFSET + 3] == (Digits(|msg|) + KIND)[..3]
  {
    assert |STATUS| == LENGTH_OFFSET && |KIND| >= 3;
    var d, t := Digits(|msg|), Digits(|msg|) + (KIND + msg);
    assert t == (d + KIND) + msg;
    assert Response(msg)[LENGTH_OFFSET..] == t;
    assert t[..3] == (d + KIND)[..3];
  }

  lemma OneDigit(n: nat)
    requires n < 10
    ensures ParseInt(Trim((Digits(n) + KIND)[..3])) == None
  {
    var s := [Digit(n), '\n', 'C'];
    assert (Digits(n) + KIND)[..3] == s;
    assert s[0] > ' ' && s[2] > ' ';
    assert Trim(s) == s;
    assert !IsDigit(s[1]) && s[0] != '-' && s[0] != '+';
  }

  lemma TwoDigits(n: nat)
    requires 10 <= n < 100
    ensures ParseInt(Trim((Digits(n) + KIND)[..3])) == Some(n)
  {
    var d := Digits(n);
    assert Digits(n / 10) == [Digit(n / 10)];
    assert d == [Digit(n / 10), Digit(n % 10)];
    var s := [d[0], d[1], '\n'];
    assert (d + KIND)[..3] == s;
    assert TrimStart(s) == s;
    assert s[..2] == d && TrimEnd(d) == d;
    ParseUnsigned(n);
  }

  lemma HundredsAndThousands()
    ensures Pow10(2) == 100 && Pow10(3) == 1000
  {
    assert Pow10(3) == 10 * Pow10(2) && Pow10(2) == 10 * Pow10(1) && Pow10(1) == 10 * Pow10(0);
  }

  lemma ThreeDigits(n: nat)
    requires 100 <= n < 1000
    ensures |Digits(n)| == 3 && ParseInt(Trim((Digits(n) + KIND)[..3])) == Some(n)
  {
    var d := Digits(n);
    HundredsAndThousands();
    DigitsLength(n, 3);
    DigitsLength(n, 2);
    assert (d + KIND)[..3] == d;
    ParseBare(n);
  }

  /** The first three digits of a longer number are those of a smaller one. */
  lemma {:induction false} FirstDigits(n: nat) returns (m: nat)
    requires n >= 1000
    ensures m < n && 100 <= m < 1000 && |Digits(m)| == 3 && Digits(m) <= Digits(n)
  {
    if n < 10000 {
      m := n / 10;
      ThreeDigits(m);
    } else {
      m := FirstDigits(n / 10);
    }
  }

  /** The receiver recovers the length the server printed exactly when it has two or three digits: of one digit it
      reads the line end as well, of four it misses the last. */
  lemma ContentLengthIff(msg: string)
    ensures SizeAt(Response(msg)) == Some(|msg|) <==> 10 <= |msg| < 1000
  {
    CutLength(msg);
    var n := |msg|;
    if n < 10 {
      OneDigit(n);
    } else if n < 100 {
      TwoDigits(n);
    } else if n < 1000 {
      ThreeDigits(n);
    } else {
      var m := FirstDigits(n);
      ThreeDigits(m);
      assert (Digits(n) + KIND)[..3] == Digits(m) == (Digits(m) + KIND)[..3];
    }
  }
}
