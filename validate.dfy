/** The string validators of `src/utils/validate.ts`. Each regular
    expression is written out in the shape of its pattern, and a lemma or
    contract states which strings it accepts. JavaScript strings are UTF-16:
    `s.length` counts a character outside the Basic Multilingual Plane twice,
    and a pattern without the `u` flag sees such a character as two code
    units, neither of which is in any class used here. */
module Validate {
  import opened Common
  import opened Csv

  predicate IsAsciiLetter(c: char) { 'a' <= c <= 'z' || 'A' <= c <= 'Z' }
  predicate IsLower(c: char) { 'a' <= c <= 'z' }
  predicate IsUpper(c: char) { 'A' <= c <= 'Z' }
  predicate IsWordChar(c: char) { IsAsciiLetter(c) || IsDigit(c) || c == '_' }
  predicate IsBmp(c: char) { c <= '\U{FFFF}' }

  /** `[\u4e00-\u9fa5A-Za-z0-9-_]`: the common CJK ideographs up to U+9FA5,
      ASCII letters and digits, '-' and '_'. */
  predicate IsNicknameChar(c: char) {
    '\U{4E00}' <= c <= '\U{9FA5}' || IsAsciiLetter(c) || IsDigit(c) || c == '-' || c == '_'
  }

  /** `s.length`: the number of UTF-16 code units. */
  function Utf16Len(s: string): (n: nat)
    ensures |s| <= n <= 2 * |s|
  {
    if s == [] then 0 else Utf16Len(s[1..]) + (if IsBmp(s[0]) then 1 else 2)
  }

  lemma {:induction false} BmpLen(s: string)
    requires forall i :: 0 <= i < |s| ==> IsBmp(s[i])
    ensures Utf16Len(s) == |s|
  {
    if s != [] {
      BmpLen(s[1..]);
    }
  }

  /** `/^[…]*$/.test(s)` for the character class `cls`. */
  function StarMatch(s: string, cls: char -> bool): (r: bool)
    ensures r <==> forall i :: 0 <= i < |s| ==> cls(s[i])
  {
    s == [] || (cls(s[0]) && StarMatch(s[1..], cls))
  }

  /** `/[…]/.test(s)`: some character of `s` is in the class `cls`. */
  function Contains(s: string, cls: char -> bool): (r: bool)
    ensures r <==> exists i :: 0 <= i < |s| && cls(s[i])
  {
    s != [] && (cls(s[0]) || Contains(s[1..], cls))
  }

  /** `isUsername`: `/^[a-zA-Z][a-zA-Z0-9_]*$/` and at most 18 code units. */
  function IsUsername(s: string): bool
  {
    |s| >= 1 && IsAsciiLetter(s[0]) && StarMatch(s[1..], IsWordChar) && Utf16Len(s) <= 18
  }

  /** A user name is an ASCII letter followed by letters, digits or '_', at
      most 18 characters in all. */
  lemma UsernameShape(s: string)
    ensures IsUsername(s) <==>
      |s| >= 1 && IsAsciiLetter(s[0]) && (forall i :: 1 <= i < |s| ==> IsWordChar(s[i])) && |s| <= 18
  {
    if |s| >= 1 && IsAsciiLetter(s[0]) && StarMatch(s[1..], IsWordChar) {
      forall i | 0 <= i < |s| ensures IsBmp(s[i]) {
        if i > 0 { assert s[1..][i - 1] == s[i]; }
      }
      BmpLen(s);
    }
  }

  /** `isNickname`: `/^[\u4e00-\u9fa5A-Za-z0-9-_]*$/` and at most 12 code units. */
  function IsNickname(s: string): bool
  {
    StarMatch(s, IsNicknameChar) && Utf16Len(s) <= 12
  }

  /** `isRemark`: the nickname alphabet with at most 20 code units. */
  function IsRemark(s: string): bool
  {
    StarMatch(s, IsNicknameChar) && Utf16Len(s) <= 20
  }

  /** Nickname characters are all in the Basic Multilingual Plane, so the
      length limit counts characters. The empty string is a nickname. */
  lemma NicknameShape(s: string)
    ensures IsNickname(s) <==> (forall i :: 0 <= i < |s| ==> IsNicknameChar(s[i])) && |s| <= 12
    ensures IsRemark(s) <==> (forall i :: 0 <= i < |s| ==> IsNicknameChar(s[i])) && |s| <= 20
    ensures IsNickname("")
  {
    if StarMatch(s, IsNicknameChar) {
      BmpLen(s);
    }
  }

  /** Every nickname is an acceptable remark. */
  lemma NicknameIsRemark(s: string)
    requires IsNickname(s)
    ensures IsRemark(s)
  {
  }

  /** `[-.!@#$%^&*()+?><]` */
  predicate IsSpecial(c: char) {
    c == '-' || c == '.' || c == '!' || c == '@' || c == '#' || c == '$' || c == '%' || c == '^'
    || c == '&' || c == '*' || c == '(' || c == ')' || c == '+' || c == '?' || c == '>' || c == '<'
  }

  /** `[\u4E00-\u9FFF]`: the whole CJK Unified Ideographs block. */
  predicate IsWideHan(c: char) { '\U{4E00}' <= c <= '\U{9FFF}' }

  function Indicator(b: bool): nat { if b then 1 else 0 }

  /** How many of the four classes (digit, special, lower, upper) occur in `s`. */
  function ClassCount(s: string): (n: nat)
    ensures n <= 4
  {
    Indicator(exists i :: 0 <= i < |s| && IsDigit(s[i]))
    + Indicator(exists i :: 0 <= i < |s| && IsSpecial(s[i]))
    + Indicator(exists i :: 0 <= i < |s| && IsLower(s[i]))
    + Indicator(exists i :: 0 <= i < |s| && IsUpper(s[i]))
  }

  /** What `isPassword` accepts: two of the four classes (the comment above
      the source function asks for three), no CJK ideograph, at most 20 code
      units. */
  predicate PasswordOk(s: string) {
    ClassCount(s) >= 2 && (forall i :: 0 <= i < |s| ==> !IsWideHan(s[i])) && Utf16Len(s) <= 20
  }

  /** `isPassword`, with its counter `num` and flag `hansCheck`. */
  method IsPassword(s: string) returns (ok: bool)
    ensures ok == PasswordOk(s)
  {
    var num := 0;
    var hansCheck := false;
    if Contains(s, IsDigit) {
      num := num + 1;
    }
    if Contains(s, IsSpecial) {
      num := num + 1;
    }
    if Contains(s, IsLower) {
      num := num + 1;
    }
    if Contains(s, IsUpper) {
      num := num + 1;
    }
    if Contains(s, IsWideHan) {
      hansCheck := true;
    }
    ok := num >= 2 && !hansCheck && Utf16Len(s) <= 20;
  }

  lemma OnlyLower(s: string)
    requires |s| >= 1 && forall i :: 0 <= i < |s| ==> IsLower(s[i])
    ensures ClassCount(s) == 1
  {
    assert IsLower(s[0]);
  }

  lemma AsciiOnly(s: string)
    requires forall i :: 0 <= i < |s| ==> s[i] < '\U{0080}'
    ensures Utf16Len(s) == |s| && forall i :: 0 <= i < |s| ==> !IsWideHan(s[i])
  {
    BmpLen(s);
  }

  /** Two classes are enough: lower case and digits pass, lower case alone
      does not; and no accepted password is longer than 20 characters. */
  lemma PasswordExamples(s: string)
    ensures PasswordOk("abc123") && !PasswordOk("abcdef")
    ensures PasswordOk(s) ==> |s| <= 20
  {
    var good := "abc123";
    assert IsLower(good[0]) && IsDigit(good[3]);
    AsciiOnly(good);
    OnlyLower("abcdef");
  }

  /** `isIntNumber`: `/^[0-9]*$/`, any run of ASCII digits, the empty one included. */
  function IsIntNumber(s: string): bool
  {
    StarMatch(s, IsDigit)
  }

  lemma IntNumberShape(s: string)
    ensures IsIntNumber(s) <==> AllDigits(s)
    ensures IsIntNumber("")
  {
  }

  /** The unescaped `.` of a pattern without the `s` or `u` flag: one UTF-16
      code unit that is not a line terminator. */
  predicate IsDotChar(c: char) {
    IsBmp(c) && c != '\n' && c != '\r' && c != '\U{2028}' && c != '\U{2029}'
  }

  /** `isFloatNumber`: `/^\d+(.\d+)?$/`. */
  function IsFloatNumber(s: string): bool
  {
    (|s| >= 1 && StarMatch(s, IsDigit))
    || exists k | 1 <= k < |s| - 1 :: StarMatch(s[..k], IsDigit) && IsDotChar(s[k]) && StarMatch(s[k + 1..], IsDigit)
  }

  /** A float is a non-empty run of digits in which at most one character,
      neither the first nor the last, may be any single non-line-terminator
      code unit, not only '.'. */
  lemma FloatNumberShape(s: string)
    ensures IsFloatNumber(s) <==>
      |s| >= 1 && forall i :: 0 <= i < |s| && !IsDigit(s[i]) ==>
        0 < i < |s| - 1 && IsDotChar(s[i]) && forall j :: 0 <= j < |s| && j != i ==> IsDigit(s[j])
  {
    if IsFloatNumber(s) && !(|s| >= 1 && StarMatch(s, IsDigit)) {
      var k :| 1 <= k < |s| - 1 && StarMatch(s[..k], IsDigit) && IsDotChar(s[k]) && StarMatch(s[k + 1..], IsDigit);
      forall j | 0 <= j < |s| && j != k ensures IsDigit(s[j]) {
        if j < k { assert s[..k][j] == s[j]; } else { assert s[k + 1..][j - k - 1] == s[j]; }
      }
    }
    if |s| >= 1 && !StarMatch(s, IsDigit) {
      var i :| 0 <= i < |s| && !IsDigit(s[i]);
      if 0 < i < |s| - 1 && IsDotChar(s[i]) && forall j :: 0 <= j < |s| && j != i ==> IsDigit(s[j]) {
        assert StarMatch(s[..i], IsDigit) && StarMatch(s[i + 1..], IsDigit);
      }
    }
  }

  /** The separator is not only '.': "1a2" is accepted. */
  lemma FloatAcceptsAnySeparator()
    ensures IsFloatNumber("1a2") && IsFloatNumber("3.14") && !IsFloatNumber("1.") && !IsFloatNumber("")
  {
    assert StarMatch("1a2"[..1], IsDigit) && StarMatch("1a2"[2..], IsDigit);
    assert StarMatch("3.14"[..1], IsDigit) && StarMatch("3.14"[2..], IsDigit);
    assert !IsDigit("1."[1]);
  }

  predicate DigitRun(s: string, lo: nat, hi: nat) {
    lo <= |s| <= hi && AllDigits(s)
  }

  /** `isPhone`: `/^([0-9]{3,4}-)?[0-9]{7,8}$/`. */
  function IsPhone(s: string): bool
  {
    DigitRun(s, 7, 8)
    || exists k | 3 <= k <= 4 && k < |s| :: DigitRun(s[..k], 3, 4) && s[k] == '-' && DigitRun(s[k + 1..], 7, 8)
  }

  lemma DigitsHaveNoDash(s: string)
    requires AllDigits(s)
    ensures '-' !in s && '.' !in s && ',' !in s
  {
  }

  /** The groups of a phone number split on '-'. */
  predicate PhoneGroups(p: seq<string>) {
    (|p| == 1 && DigitRun(p[0], 7, 8)) || (|p| == 2 && DigitRun(p[0], 3, 4) && DigitRun(p[1], 7, 8))
  }

  lemma PhoneSplits(s: string)
    requires IsPhone(s)
    ensures PhoneGroups(Split(s, '-'))
  {
    if DigitRun(s, 7, 8) {
      DigitsHaveNoDash(s);
      SplitSingle(s, '-');
    } else {
      var k :| 3 <= k <= 4 && k < |s| && DigitRun(s[..k], 3, 4) && s[k] == '-' && DigitRun(s[k + 1..], 7, 8);
      var area, local := s[..k], s[k + 1..];
      assert s == area + ['-'] + local;
      DigitsHaveNoDash(area);
      DigitsHaveNoDash(local);
      SplitPrefix(area, '-', local);
      SplitSingle(local, '-');
      assert Split(s, '-') == [area, local];
    }
  }

  lemma PhoneJoins(s: string)
    requires PhoneGroups(Split(s, '-'))
    ensures IsPhone(s)
  {
    var p := Split(s, '-');
    JoinSplit(s, '-');
    if |p| == 2 {
      assert p == [p[0]] + p[1..];
      JoinCons(p[0], p[1..], '-');
      var k := |p[0]|;
      assert s == p[0] + ['-'] + p[1];
      assert s[..k] == p[0] && s[k] == '-' && s[k + 1..] == p[1];
    }
  }

  /** A phone number is 7 or 8 digits, optionally after a 3 or 4 digit area
      code and one '-': split on '-', it is one or two digit groups of those
      lengths. */
  lemma PhoneShape(s: string)
    ensures IsPhone(s) <==> PhoneGroups(Split(s, '-'))
  {
    if IsPhone(s) {
      PhoneSplits(s);
    }
    if PhoneGroups(Split(s, '-')) {
      PhoneJoins(s);
    }
  }

  /** `isURL`: "http", an optional 's', then "://" and anything at all; the
      pattern only constrains the prefix. */
  function IsURL(s: string): bool
  {
    |s| >= 4 && s[..4] == "http"
    && var t := s[4..]; (|t| >= 3 && t[..3] == "://") || (|t| >= 4 && t[..4] == "s://")
  }

  lemma URLShape(s: string)
    ensures IsURL(s) <==> "http://" <= s || "https://" <= s
  {
    if |s| >= 7 && s[..7] == "http://" {
      assert s[..4] == "http" && s[4..][..3] == "://";
    }
    if |s| >= 8 && s[..8] == "https://" {
      assert s[..4] == "http" && s[4..][..4] == "s://";
    }
    if IsURL(s) {
      var t := s[4..];
      if |t| >= 3 && t[..3] == "://" {
        assert s[..7] == s[..4] + t[..3];
      } else {
        assert s[..8] == s[..4] + t[..4];
      }
    }
  }

  /** One group of the IPv4 pattern: `2(5[0-5]|[0-4]\d)` or `[0-1]?\d{1,2}`. */
  predicate OctetPattern(p: string) {
    (|p| == 3 && p[0] == '2' && ((p[1] == '5' && '0' <= p[2] <= '5') || ('0' <= p[1] <= '4' && IsDigit(p[2]))))
    || (1 <= |p| <= 2 && AllDigits(p))
    || (|p| == 3 && (p[0] == '0' || p[0] == '1') && AllDigits(p))
  }

  /** The value of a string of at most three digits. */
  lemma ShortDecimal(p: string)
    requires 1 <= |p| <= 3 && AllDigits(p)
    ensures |p| == 1 ==> DecimalValue(p) == DigitValue(p[0])
    ensures |p| == 2 ==> DecimalValue(p) == 10 * DigitValue(p[0]) + DigitValue(p[1])
    ensures |p| == 3 ==> DecimalValue(p) == 100 * DigitValue(p[0]) + 10 * DigitValue(p[1]) + DigitValue(p[2])
  {
    var o := p[..1];
    assert o[..0] == [] && o[0] == p[0];
    assert DecimalValue(o) == DigitValue(p[0]);
    if |p| >= 2 {
      var q := p[..2];
      assert q[..1] == o && q[1] == p[1];
      assert DecimalValue(q) == DecimalValue(o) * 10 + DigitValue(p[1]);
      if |p| == 3 {
        assert p[..|p| - 1] == q;
      } else {
        assert p == q;
      }
    } else {
      assert p == o;
    }
  }

  /** A group is one to three digits (leading zeros allowed) with a value of
      at most 255. */
  lemma OctetShape(p: string)
    ensures OctetPattern(p) <==> 1 <= |p| <= 3 && AllDigits(p) && DecimalValue(p) <= 255
  {
    if 1 <= |p| <= 3 && AllDigits(p) {
      ShortDecimal(p);
    }
  }

  /** `isIpv4`: `^O(\.O){3}$` with O the group pattern. A group holds no '.',
      so the string matches exactly when it splits on '.' into four groups. */
  function IsIpv4(s: string): bool
  {
    var parts := Split(s, '.');
    |parts| == 4 && forall i :: 0 <= i < 4 ==> OctetPattern(parts[i])
  }

  function DecimalLength(n: nat): (d: nat)
    ensures d == |DecimalString(n)|
  {
    if n < 10 then 1 else DecimalLength(n / 10) + 1
  }

  /** A number of at most 255, written in decimal, is one group. */
  lemma DecimalOctet(n: nat)
    requires n <= 255
    ensures '.' !in DecimalString(n) && OctetPattern(DecimalString(n))
  {
    DecimalRoundTrip(n);
    assert DecimalLength(n) <= 3 by {
      if n >= 10 { assert DecimalLength(n / 10) <= 2 by { if n / 10 >= 10 { assert n / 100 < 10; } } }
    }
    DigitsHaveNoDash(DecimalString(n));
    OctetShape(DecimalString(n));
  }

  /** Four numbers of at most 255, written in decimal and joined with '.',
      make an address `isIpv4` accepts. */
  lemma Ipv4Accepts(ns: seq<nat>)
    requires |ns| == 4 && forall i :: 0 <= i < 4 ==> ns[i] <= 255
    ensures IsIpv4(Join(Decimals(ns), '.'))
  {
    var parts := Decimals(ns);
    forall i | 0 <= i < 4 ensures '.' !in parts[i] && OctetPattern(parts[i]) {
      DecimalOctet(ns[i]);
    }
    SplitJoin(parts, '.');
  }

  /** Every address `isIpv4` accepts is four groups of one to three digits,
      each with a value of at most 255. */
  lemma Ipv4Groups(s: string)
    requires IsIpv4(s)
    ensures var parts := Split(s, '.');
      |parts| == 4 && forall i :: 0 <= i < 4 ==> 1 <= |parts[i]| <= 3 && AllDigits(parts[i]) && DecimalValue(parts[i]) <= 255
  {
    var ps := Split(s, '.');
    forall i | 0 <= i < 4 ensures 1 <= |ps[i]| <= 3 && AllDigits(ps[i]) && DecimalValue(ps[i]) <= 255 {
      OctetShape(ps[i]);
    }
  }

  /** JavaScript's white space and line terminators, which `trim` removes. */
  predicate IsJsSpace(c: char) {
    c == '\t' || c == '\n' || c == '\U{000B}' || c == '\U{000C}' || c == '\r' || c == ' '
    || c == '\U{00A0}' || c == '\U{1680}' || '\U{2000}' <= c <= '\U{200A}' || c == '\U{2028}'
    || c == '\U{2029}' || c == '\U{202F}' || c == '\U{205F}' || c == '\U{3000}' || c == '\U{FEFF}'
  }

  function TrimStart(s: string): (r: string)
    ensures |r| <= |s| && r == s[|s| - |r|..]
    ensures forall k :: 0 <= k < |s| - |r| ==> IsJsSpace(s[k])
    ensures r != [] ==> !IsJsSpace(r[0])
  {
    if s != [] && IsJsSpace(s[0]) then TrimStart(s[1..]) else s
  }

  function TrimEnd(s: string): (r: string)
    ensures |r| <= |s| && r == s[..|r|]
    ensures forall k :: |r| <= k < |s| ==> IsJsSpace(s[k])
    ensures r != [] ==> !IsJsSpace(r[|r| - 1])
  {
    if s != [] && IsJsSpace(s[|s| - 1]) then TrimEnd(s[..|s| - 1]) else s
  }

  /** `String.prototype.trim`: what is left between the leading and the
      trailing white space. */
  function Trim(s: string): (r: string)
    ensures |r| <= |s|
    ensures r != [] ==> !IsJsSpace(r[0]) && !IsJsSpace(r[|r| - 1])
  {
    TrimEnd(TrimStart(s))
  }

  /** The trimmed string is a slice of `s` with only white space outside it. */
  lemma TrimSlice(s: string)
    ensures exists i, j :: (0 <= i <= j <= |s| && Trim(s) == s[i..j]
      && (forall k :: 0 <= k < i ==> IsJsSpace(s[k])) && (forall k :: j <= k < |s| ==> IsJsSpace(s[k])))
  {
    var t := TrimStart(s);
    var i := |s| - |t|;
    var j := i + |Trim(s)|;
    assert t == s[i..];
    assert Trim(s) == t[..j - i];
    assert Trim(s) == s[i..j];
    forall k | j <= k < |s| ensures IsJsSpace(s[k]) {
      assert s[k] == t[k - i];
    }
  }

  /** The trimmed string is empty exactly when `s` is all white space. */
  lemma TrimBlank(s: string)
    ensures Trim(s) == [] <==> forall k :: 0 <= k < |s| ==> IsJsSpace(s[k])
  {
    TrimSlice(s);
  }

  /** A string with no white space at either end is its own trim. */
  lemma TrimKeeps(s: string)
    requires s != [] && !IsJsSpace(s[0]) && !IsJsSpace(s[|s| - 1])
    ensures Trim(s) == s
  {
  }

  /** The pieces of each string of `parts` split on `sep`, one after the
      other (`strArr = [...strArr, ...strIn.split('-')]` over a list). */
  function SplitAll(parts: seq<string>, sep: char): seq<string>
  {
    if parts == [] then [] else SplitAll(parts[..|parts| - 1], sep) + Split(parts[|parts| - 1], sep)
  }

  lemma SplitAllSnoc(parts: seq<string>, x: string, sep: char)
    ensures SplitAll(parts + [x], sep) == SplitAll(parts, sep) + Split(x, sep)
  {
    var q := parts + [x];
    assert q[..|q| - 1] == parts && q[|q| - 1] == x;
  }

  lemma SplitAllSingle(x: string, sep: char)
    ensures SplitAll([x], sep) == Split(x, sep)
  {
    SplitAllSnoc([], x, sep);
    assert [] + [x] == [x];
  }

  lemma SplitAllPrefix(parts: seq<string>, j: nat, sep: char)
    requires j < |parts|
    ensures SplitAll(parts[..j + 1], sep) == SplitAll(parts[..j], sep) + Split(parts[j], sep)
  {
    assert parts[..j + 1] == parts[..j] + [parts[j]];
    SplitAllSnoc(parts[..j], parts[j], sep);
  }

  lemma SplitAllStep(done: seq<string>, parts: seq<string>, j: nat, sep: char)
    requires j < |parts|
    ensures SplitAll(done + parts[..j + 1], sep) == SplitAll(done + parts[..j], sep) + Split(parts[j], sep)
  {
    assert done + parts[..j + 1] == (done + parts[..j]) + [parts[j]];
    SplitAllSnoc(done + parts[..j], parts[j], sep);
  }

  /** Splitting a concatenation splits each part. */
  lemma {:induction false} SplitAllConcat(a: seq<string>, b: seq<string>, sep: char)
    ensures SplitAll(a + b, sep) == SplitAll(a, sep) + SplitAll(b, sep)
    decreases |b|
  {
    if b != [] {
      var init, last := b[..|b| - 1], b[|b| - 1];
      assert b == init + [last];
      assert a + b == (a + init) + [last];
      SplitAllConcat(a, init, sep);
      SplitAllSnoc(a + init, last, sep);
      SplitAllSnoc(init, last, sep);
    } else {
      assert a + b == a;
    }
  }

  /** The pieces `isPort` checks: the trimmed input split on newlines, each
      line on ',', each of those on '-'. */
  function PortPieces(t: string): seq<string>
  {
    SplitAll(SplitAll(Split(t, '\n'), ','), '-')
  }

  /** `Number(t)` on a trimmed piece, read digit by digit: the empty string
      is 0, a run of ASCII digits its decimal value; anything else is taken
      as `NaN` (`None`). */
  function NumberOf(t: string): Option<nat>
  {
    if t == [] then Some(0)
    else match NumberOf(t[..|t| - 1])
      case None => None
      case Some(v) => if IsDigit(t[|t| - 1]) then Some(v * 10 + DigitValue(t[|t| - 1])) else None
  }

  /** A piece has a number exactly when it is all digits, and then the
      number is its decimal value. */
  lemma {:induction false} NumberOfDigits(t: string)
    ensures NumberOf(t) == if AllDigits(t) then Some(DecimalValue(t)) else None
  {
    if t != [] {
      var init := t[..|t| - 1];
      NumberOfDigits(init);
      assert AllDigits(t) <==> AllDigits(init) && IsDigit(t[|t| - 1]);
    }
  }

  /** A piece passes when it is empty or its trimmed value is a number no
      larger than 65535. */
  predicate PieceOk(p: string) {
    p == [] || (var n := NumberOf(Trim(p)); n.Some? && n.value <= 65535)
  }

  predicate AllPiecesOk(pieces: seq<string>) {
    forall i :: 0 <= i < |pieces| ==> PieceOk(pieces[i])
  }

  /** What `isPort` accepts: a non-blank input all of whose pieces pass. */
  predicate PortOk(s: string) {
    Trim(s) != [] && AllPiecesOk(PortPieces(Trim(s)))
  }

  /** The nested loops of `isPort` that collect `strArr` from the trimmed
      input: each line, each comma-separated part of it, each '-'-separated
      piece of that, in order. */
  method CollectPieces(t: string) returns (strArr: seq<string>)
    ensures strArr == PortPieces(t)
  {
    var lines := Split(t, '\n');
    strArr := [];
    for i := 0 to |lines|
      invariant strArr == SplitAll(SplitAll(lines[..i], ','), '-')
    {
      var ins := Split(lines[i], ',');
      ghost var done := SplitAll(lines[..i], ',');
      assert done + ins[..0] == done;
      for j := 0 to |ins|
        invariant strArr == SplitAll(done + ins[..j], '-')
      {
        SplitAllStep(done, ins, j, '-');
        strArr := strArr + Split(ins[j], '-');
      }
      assert ins[..|ins|] == ins;
      SplitAllPrefix(lines, i, ',');
    }
    assert lines[..|lines|] == lines;
  }

  /** `isPort`: blank input fails; otherwise the flag `check` stays true
      while every collected piece passes. */
  method IsPort(s: string) returns (ok: bool)
    ensures ok == PortOk(s)
  {
    var t := Trim(s);
    if t == [] {
      return false;
    }
    var strArr := CollectPieces(t);
    var check := true;
    for k := 0 to |strArr|
      invariant check <==> forall m :: 0 <= m < k ==> PieceOk(strArr[m])
    {
      if strArr[k] != [] {
        var num := NumberOf(Trim(strArr[k]));
        if num.None? || num.value > 65535 {
          check := false;
        }
      }
    }
    assert check == AllPiecesOk(strArr);
    ok := check;
  }

  /** Blank input is rejected. */
  lemma PortBlank(s: string)
    requires forall k :: 0 <= k < |s| ==> IsJsSpace(s[k])
    ensures !PortOk(s)
  {
    TrimBlank(s);
  }

  /** The decimal renderings of a list of numbers. */
  function Decimals(ns: seq<nat>): (ps: seq<string>)
    ensures |ps| == |ns| && forall i :: 0 <= i < |ns| ==> ps[i] == DecimalString(ns[i])
  {
    seq(|ns|, i requires 0 <= i < |ns| => DecimalString(ns[i]))
  }

  /** Joining non-empty digit runs: the result starts and ends with a digit,
      and every character is a digit or the separator. */
  lemma {:induction false} JoinDigits(ps: seq<string>, sep: char)
    requires |ps| >= 1 && forall i :: 0 <= i < |ps| ==> |ps[i]| >= 1 && AllDigits(ps[i])
    ensures var j := Join(ps, sep); |j| >= 1 && IsDigit(j[0]) && IsDigit(j[|j| - 1])
    ensures forall k :: 0 <= k < |Join(ps, sep)| ==> IsDigit(Join(ps, sep)[k]) || Join(ps, sep)[k] == sep
  {
    if |ps| > 1 {
      var rest := Join(ps[1..], sep);
      JoinDigits(ps[1..], sep);
      var j := Join(ps, sep);
      assert j == ps[0] + [sep] + rest;
      forall k | 0 <= k < |j| ensures IsDigit(j[k]) || j[k] == sep {
        if k < |ps[0]| {
          assert j[k] == ps[0][k];
        } else if k > |ps[0]| {
          assert j[k] == rest[k - |ps[0]| - 1];
        }
      }
    }
  }

  /** Splitting pieces that hold no separator leaves them as they are. */
  lemma {:induction false} SplitAllUnsplit(ps: seq<string>, sep: char)
    requires forall i :: 0 <= i < |ps| ==> sep !in ps[i]
    ensures SplitAll(ps, sep) == ps
  {
    if ps != [] {
      var init := ps[..|ps| - 1];
      SplitAllUnsplit(init, sep);
      SplitSingle(ps[|ps| - 1], sep);
      assert ps == init + [ps[|ps| - 1]];
    }
  }

  /** One port number passes exactly when it is at most 65535. */
  lemma PieceNumber(n: nat)
    ensures PieceOk(DecimalString(n)) <==> n <= 65535
  {
    var p := DecimalString(n);
    TrimKeeps(p);
    NumberOfDigits(p);
    DecimalRoundTrip(n);
  }

  /** The pieces `isPort` collects from numbers joined with ',' or '-' are
      their decimal renderings. */
  lemma JoinedPieces(ns: seq<nat>, sep: char)
    requires |ns| >= 1 && (sep == ',' || sep == '-')
    ensures Trim(Join(Decimals(ns), sep)) == Join(Decimals(ns), sep)
    ensures PortPieces(Join(Decimals(ns), sep)) == Decimals(ns)
  {
    var ps := Decimals(ns);
    var j := Join(ps, sep);
    JoinDigits(ps, sep);
    TrimKeeps(j);
    assert '\n' !in j;
    SplitSingle(j, '\n');
    SplitAllSingle(j, ',');
    forall i | 0 <= i < |ps| ensures ',' !in ps[i] && '-' !in ps[i] {
      DigitsHaveNoDash(ps[i]);
    }
    SplitJoin(ps, sep);
    if sep == ',' {
      SplitAllUnsplit(ps, '-');
      assert PortPieces(j) == SplitAll(ps, '-');
    } else {
      assert ',' !in j;
      SplitSingle(j, ',');
      SplitAllSingle(j, '-');
      assert PortPieces(j) == SplitAll([j], '-');
    }
  }

  /** Port numbers written in decimal and joined with ',' (a list) or '-' (a
      range) pass exactly when every one of them is at most 65535. */
  lemma PortNumbers(ns: seq<nat>, sep: char)
    requires |ns| >= 1 && (sep == ',' || sep == '-')
    ensures PortOk(Join(Decimals(ns), sep)) <==> forall i :: 0 <= i < |ns| ==> ns[i] <= 65535
  {
    var ps := Decimals(ns);
    JoinedPieces(ns, sep);
    forall i | 0 <= i < |ns| ensures PieceOk(ps[i]) <==> ns[i] <= 65535 {
      PieceNumber(ns[i]);
    }
  }
}
