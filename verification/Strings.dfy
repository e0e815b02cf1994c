/** What the modelled code uses of Python's strings. */
module Strings {
  import opened Prelude

  /** What `strip` removes: the characters Unicode counts as white space, and four separators. */
  predicate IsSpace(c: char) {
    var n := c as int;
    || 9 <= n <= 13 || 28 <= n <= 32 || n == 0x85 || n == 0xA0 || n == 0x1680 || 0x2000 <= n <= 0x200A
    || n == 0x2028 || n == 0x2029 || n == 0x202F || n == 0x205F || n == 0x3000
  }

  function StripLeft(s: string): string {
    if s != "" && IsSpace(s[0]) then StripLeft(s[1..]) else s
  }

  function StripRight(s: string): string {
    if s != "" && IsSpace(s[|s| - 1]) then StripRight(s[..|s| - 1]) else s
  }

  function Strip(s: string): string {
    StripRight(StripLeft(s))
  }

  function UpperChar(c: char): char {
    if 'a' <= c <= 'z' then (c as int - 32) as char else c
  }

  function Upper(s: string): (r: string)
    ensures |r| == |s|
  {
    seq(|s|, i requires 0 <= i < |s| => UpperChar(s[i]))
  }

  /** The index of the first dash, or the length: where `partition('-')` cuts. */
  function Dash(s: string): (k: nat)
    ensures k <= |s|
  {
    if s == "" || s[0] == '-' then 0 else 1 + Dash(s[1..])
  }

  predicate IsDigit(c: char) { '0' <= c <= '9' }

  /** A number without a sign: digits, with single underscores between them. */
  function Digits(s: string): Option<int> {
    if s == "" || !IsDigit(s[|s| - 1]) then None else
      var digit, rest := s[|s| - 1] as nat - '0' as nat, s[..|s| - 1];
      if rest == "" then Some(digit) else
        match Digits(if rest[|rest| - 1] == '_' then rest[..|rest| - 1] else rest)
        case None => None
        case Some(n) => Some(10 * n + digit)
  }

  /** What `int` strips: in a string of ASCII characters it does not count the four separators as white space. */
  predicate IsIntSpace(c: char, ascii: bool) {
    if ascii then 9 <= c as int <= 13 || c == ' ' else IsSpace(c)
  }

  function IntTrimmed(s: string, ascii: bool): string {
    if s != "" && IsIntSpace(s[0], ascii) then IntTrimmed(s[1..], ascii)
    else if s != "" && IsIntSpace(s[|s| - 1], ascii) then IntTrimmed(s[..|s| - 1], ascii)
    else s
  }

  /** `int(s)`, or nothing where it raises. */
  function ParseInt(s: string): Option<int> {
    var t := IntTrimmed(s, forall i :: 0 <= i < |s| ==> s[i] < 128 as char);
    if t == "" then None
    else match Digits(if t[0] == '+' || t[0] == '-' then t[1..] else t)
      case None => None
      case Some(n) => Some(if t[0] == '-' then -n else n)
  }

  /** `f"{n}"` */
  function Decimal(n: nat): string {
    if n < 10 then [('0' as nat + n) as char] else Decimal(n / 10) + [('0' as nat + n % 10) as char]
  }

  lemma {:induction false} DecimalDigits(n: nat)
    ensures Digits(Decimal(n)) == Some(n) && Decimal(n) != ""
    ensures forall i :: 0 <= i < |Decimal(n)| ==> IsDigit(Decimal(n)[i])
  {
    if n >= 10 {
      DecimalDigits(n / 10);
      assert Decimal(n)[..|Decimal(n)| - 1] == Decimal(n / 10);
    }
  }

  lemma DecimalParses(n: nat)
    ensures ParseInt(Decimal(n)) == Some(n)
  {
    hide Digits, Decimal;
    DecimalDigits(n);
  }

  /** Nothing to strip at either end, nothing to put into capitals. */
  predicate Plain(s: string) {
    forall i :: 0 <= i < |s| ==> !IsSpace(s[i]) && UpperChar(s[i]) == s[i]
  }

  lemma PlainUnchanged(s: string)
    requires Plain(s)
    ensures Strip(Upper(s)) == s
  {
    assert Upper(s) == s;
  }

  lemma {:induction false} PlainDecimal(n: nat)
    ensures Plain(Decimal(n))
  {
    if n >= 10 {
      PlainDecimal(n / 10);
    }
  }

  lemma {:induction false} StripPadding(base: string, n: nat)
    requires base != "" && !IsSpace(base[0]) && !IsSpace(base[|base| - 1])
    ensures Strip(base + seq(n, i => ' ')) == base
  {
    var s := base + seq(n, i => ' ');
    assert s[0] == base[0];
    if n == 0 {
      assert s == base;
    } else {
      assert s[..|s| - 1] == base + seq(n - 1, i => ' ');
      StripPadding(base, n - 1);
      assert (base + seq(n - 1, i => ' '))[0] == base[0];
    }
  }

  predicate Blank(s: string) {
    forall i :: 0 <= i < |s| ==> s[i] == ' '
  }

  /** Spaces on both sides come off, and nothing else. */
  lemma {:induction false} StripAround(pre: string, mid: string, post: string)
    requires Blank(pre) && Blank(post)
    requires mid != "" && !IsSpace(mid[0]) && !IsSpace(mid[|mid| - 1])
    ensures Strip(pre + mid + post) == mid
    decreases |pre| + |post|
  {
    var s := pre + mid + post;
    if pre != "" {
      assert s[0] == pre[0];
      assert s[1..] == pre[1..] + mid + post;
      StripAround(pre[1..], mid, post);
    } else if post != "" {
      var n := |post| - 1;
      assert s[|s| - 1] == post[n] && s[0] == mid[0];
      assert s[..|s| - 1] == pre + mid + post[..n];
      StripAround(pre, mid, post[..n]);
    } else {
      assert s == mid;
    }
  }

  /** Small letters become capitals, and nothing else changes. */
  lemma UpperExamples()
    ensures Upper("kp4pra-7") == "KP4PRA-7" && Upper("N0CALL az") == "N0CALL AZ"
  {
  }

  lemma NumberExamples()
    ensures Decimal(0) == "0" && Decimal(407) == "407" && Decimal(99999) == "99999"
    ensures Digits("12") == Some(12) && Digits("1_0") == Some(10)
    ensures Digits("1__0") == None && Digits("_1") == None && Digits("7a") == None
  {
    assert "12"[..1] == "1" && "1_0"[..2] == "1_" && "1_"[..1] == "1";
    assert "1__0"[..3] == "1__" && "1__"[..2] == "1_" && "_1"[..1] == "_" && "_"[..0] == "";
  }

  /** A sign in front, and white space around. */
  lemma SignExamples()
    ensures ParseInt("+5") == Some(5) && ParseInt("-1") == Some(-1)
  {
    assert "+5"[1..] == "5" && "-1"[1..] == "1";
  }

  lemma UpperAround(pre: string, mid: string, post: string)
    requires Blank(pre) && Blank(post)
    ensures Upper(pre + mid + post) == pre + Upper(mid) + post
  {
  }

  /** No white space at either end. */
  predicate Trimmed(s: string) {
    s == "" || (!IsSpace(s[0]) && !IsSpace(s[|s| - 1]))
  }

  lemma {:induction false} StripRightEnds(s: string)
    ensures var t := StripRight(s); |t| <= |s| && t == s[..|t|] && (t == "" || !IsSpace(t[|t| - 1]))
  {
    if s != "" && IsSpace(s[|s| - 1]) {
      StripRightEnds(s[..|s| - 1]);
    }
  }

  lemma {:induction false} StripLeftEnds(s: string)
    ensures var t := StripLeft(s); t == "" || !IsSpace(t[0])
  {
    if s != "" && IsSpace(s[0]) {
      StripLeftEnds(s[1..]);
    }
  }

  lemma StripEnds(s: string)
    ensures Trimmed(Strip(s))
  {
    hide IsSpace, StripLeft, StripRight;
    StripLeftEnds(s);
    StripRightEnds(StripLeft(s));
    var t := StripRight(StripLeft(s));
    assert t != "" ==> t[0] == StripLeft(s)[0];
  }

  lemma StripFixed(s: string)
    requires Trimmed(s)
    ensures Strip(s) == s
  {
  }

  lemma UpperEnds(s: string)
    requires Trimmed(s)
    ensures Trimmed(Upper(s))
  {
  }

  lemma UpperAgain(s: string)
    ensures Upper(Upper(s)) == Upper(s)
  {
  }

  /** Tabs, line ends, the separators and the spaces beyond ASCII are white space; a zero is not. */
  lemma SpaceExamples()
    ensures IsSpace('\t') && IsSpace('\n') && IsSpace('\r')
    ensures IsSpace(28 as char) && IsSpace(31 as char) && IsSpace(' ')
    ensures IsSpace(0x85 as char) && IsSpace(0xA0 as char) && IsSpace(0x2003 as char) && IsSpace(0x3000 as char)
    ensures !IsSpace(0 as char) && !IsSpace(8 as char) && !IsSpace(14 as char) && !IsSpace('a') && !IsSpace('0')
  {
  }
}
