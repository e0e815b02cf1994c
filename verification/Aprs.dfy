/** APRS text messages: `format_message`, `format_ack`, `format_reject` and `parse_message` of aprs.py (APRS Protocol
    Reference 1.0.1, chapter 14). */
module Aprs {
  import opened Prelude
  import opened Strings

  const ADDRESSEE_LEN: nat := 9
  const MAX_TEXT: nat := 67
  const MSGNO_MAX_LEN: nat := 5

  // ---------------------------------------------------------------- fields

  /** `normalize_call` */
  function Normal(call: string): string {
    Upper(Strip(call))
  }

  /** `format_addressee` */
  function Addressee(call: string): (r: string)
    ensures |r| == ADDRESSEE_LEN
  {
    seq(ADDRESSEE_LEN, i => if 0 <= i < |Normal(call)| then Normal(call)[i] else ' ')
  }

  /** Line ends become single spaces. */
  function OneLine(text: string): string {
    if text == "" then ""
    else if |text| >= 2 && text[0] == '\r' && text[1] == '\n' then " " + OneLine(text[2..])
    else if text[0] == '\r' || text[0] == '\n' then " " + OneLine(text[1..])
    else [text[0]] + OneLine(text[1..])
  }

  predicate Forbidden(c: char) {
    c == '|' || c == '~' || c == '{'
  }

  function Allowed(text: string): string {
    if text == "" then "" else (if Forbidden(text[0]) then "" else [text[0]]) + Allowed(text[1..])
  }

  function Cut(s: string, n: nat): string {
    if |s| <= n then s else s[..n]
  }

  /** `sanitize_text` */
  function Sanitized(text: string): string {
    Cut(Allowed(OneLine(text)), MAX_TEXT)
  }

  /** `format_message`, with an empty number for none. */
  function Format(addressee: string, text: string, msgno: string): string {
    ":" + Addressee(addressee) + ":" + Sanitized(text) + if msgno == "" then "" else "{" + Cut(msgno, MSGNO_MAX_LEN)
  }

  function FormatAck(addressee: string, msgno: string): string {
    ":" + Addressee(addressee) + ":ack" + Cut(msgno, MSGNO_MAX_LEN)
  }

  function FormatReject(addressee: string, msgno: string): string {
    ":" + Addressee(addressee) + ":rej" + Cut(msgno, MSGNO_MAX_LEN)
  }

  /** A callsign may be written in any case and with spaces around it. */
  lemma NormalAround(pre: string, call: string, post: string)
    requires Blank(pre) && Blank(post) && Trimmed(call) && call != ""
    ensures Normal(pre + call + post) == Upper(call)
  {
    hide Strip;
    StripAround(pre, call, post);
  }

  lemma NormalTwice(call: string)
    ensures Normal(Normal(call)) == Normal(call)
  {
    hide IsSpace, StripLeft, StripRight, UpperChar;
    StripEnds(call);
    UpperEnds(Strip(call));
    StripFixed(Normal(call));
    UpperAgain(Strip(call));
  }

  // ---------------------------------------------------------------- parsing

  datatype Parsed = NoMessage | Message(addressee: string, text: string, number: Option<string>)
                  | Ack(addressee: string, msgno: string) | Reject(addressee: string, msgno: string)

  predicate IsAlnum(c: char) {
    'a' <= c <= 'z' || 'A' <= c <= 'Z' || '0' <= c <= '9'
  }

  predicate AllAlnum(s: string) {
    forall i :: 0 <= i < |s| ==> IsAlnum(s[i])
  }

  predicate AllSpace(s: string) {
    forall i :: 0 <= i < |s| ==> IsSpace(s[i])
  }

  predicate IsNumber(s: string) {
    1 <= |s| <= MSGNO_MAX_LEN && AllAlnum(s)
  }

  /** How many letters and digits `s` starts with. */
  function Run(s: string): (k: nat)
    ensures k <= |s| && AllAlnum(s[..k]) && (k < |s| ==> !IsAlnum(s[k]))
  {
    if s == "" || !IsAlnum(s[0]) then 0 else
      var k := 1 + Run(s[1..]);
      assert s[..k] == [s[0]] + s[1..][..k - 1];
      k
  }

  /** The number matched by `ack([A-Za-z0-9]{1,5})\}?\s*$`, or by the same with `rej`. */
  function Receipt(word: string, rest: string): Option<string> {
    if |rest| < |word| || rest[..|word|] != word then None else
      var s := rest[|word|..];
      var k := Run(s);
      var tail := if k < |s| && s[k] == '}' then s[k + 1..] else s[k..];
      if IsNumber(s[..k]) && AllSpace(tail) then Some(s[..k]) else None
  }

  /** The index of the last brace, where `rpartition("{")` cuts. */
  function LastBrace(s: string): Option<nat> {
    if s == "" then None
    else if s[|s| - 1] == '{' then Some(|s| - 1)
    else LastBrace(s[..|s| - 1])
  }

  lemma {:induction false} LastBraceIs(s: string, t: string)
    requires '{' !in t
    ensures LastBrace(s + "{" + t) == Some(|s|)
    decreases |t|
  {
    var u := s + "{" + t;
    if t != "" {
      assert u[..|u| - 1] == s + "{" + t[..|t| - 1];
      LastBraceIs(s, t[..|t| - 1]);
    }
  }

  lemma {:induction false} NoBrace(s: string)
    ensures LastBrace(s) == None <==> '{' !in s
    ensures LastBrace(s).Some? ==> LastBrace(s).value < |s|
  {
    if s != "" {
      NoBrace(s[..|s| - 1]);
      assert s == s[..|s| - 1] + [s[|s| - 1]];
    }
  }

  /** `parse_message` on the part after the second colon. */
  function ParseRest(addressee: string, rest: string): Parsed {
    var ack, rej := Receipt("ack", rest), Receipt("rej", rest);
    if ack.Some? then Ack(addressee, ack.value)
    else if rej.Some? then Reject(addressee, rej.value)
    else
      var k := LastBrace(rest);
      NoBrace(rest);
      if k.Some? && IsNumber(Strip(rest[k.value + 1..]))
      then Message(addressee, rest[..k.value], Some(Strip(rest[k.value + 1..])))
      else Message(addressee, rest, None)
  }

  /** `parse_message`: a colon, nine characters, a colon and the rest. */
  function Parse(info: string): Parsed {
    if |info| < 11 || info[0] != ':' || info[10] != ':' then NoMessage
    else ParseRest(Upper(Strip(info[1..10])), info[11..])
  }

  // ---------------------------------------------------------------- round trips

  /** `valid_call`: up to six letters and digits, and up to three more after a dash. */
  predicate ValidCall(call: string) {
    var c := Normal(call);
    var k := Dash(c);
    && 1 <= k <= 6
    && (forall i :: 0 <= i < k ==> 'A' <= c[i] <= 'Z' || IsDigit(c[i]))
    && (k < |c| ==> k + 1 < |c| <= k + 4 && forall i :: k < i < |c| ==> 'A' <= c[i] <= 'Z' || IsDigit(c[i]))
    && |c| <= ADDRESSEE_LEN
  }

  lemma {:induction false} DashIs(s: string)
    ensures Dash(s) < |s| ==> s[Dash(s)] == '-'
  {
    if s != "" && s[0] != '-' {
      DashIs(s[1..]);
    }
  }

  /** The padding of the addressee field comes off again. */
  lemma AddresseeBack(call: string)
    requires ValidCall(call)
    ensures Upper(Strip(Addressee(call))) == Normal(call)
  {
    hide Strip, Upper;
    var c := Normal(call);
    DashIs(c);
    assert Addressee(call) == c + seq(ADDRESSEE_LEN - |c|, i => ' ');
    StripPadding(c, ADDRESSEE_LEN - |c|);
    assert Plain(c);
    PlainUnchanged(c);
    UpperPlain(c);
  }

  lemma UpperPlain(s: string)
    requires Plain(s)
    ensures Upper(s) == s
  {
  }

  lemma {:induction false} AllowedClean(text: string)
    ensures '{' !in Allowed(text) && '|' !in Allowed(text) && '~' !in Allowed(text)
  {
    if text != "" {
      AllowedClean(text[1..]);
    }
  }

  /** What is sent contains no forbidden character and no line end, and is not too long. */
  lemma SanitizedClean(text: string)
    ensures var s := Sanitized(text);
      |s| <= 67 && forall c | c in s :: c != '|' && c != '~' && c != '{' && c != '\r' && c != '\n'
  {
    AllowedClean(OneLine(text));
    NoLineEnds(text);
    AllowedOnly(OneLine(text));
  }

  lemma {:induction false} NoLineEnds(text: string)
    ensures '\r' !in OneLine(text) && '\n' !in OneLine(text)
    decreases |text|
  {
    if text != "" {
      NoLineEnds(text[1..]);
      if |text| >= 2 {
        NoLineEnds(text[2..]);
      }
    }
  }

  lemma {:induction false} AllowedOnly(text: string)
    ensures forall c | c in Allowed(text) :: c in text
  {
    if text != "" {
      AllowedOnly(text[1..]);
    }
  }

  lemma OneLetter(a: string, b: string)
    requires a != "" && a[0] != '\r' && a[0] != '\n'
    ensures OneLine(a + b) == [a[0]] + OneLine(a[1..] + b)
  {
    assert (a + b)[1..] == a[1..] + b;
  }

  /** A line end, and what may follow it if it is a single carriage return. */
  predicate IsLineEnd(e: string, b: string) {
    e == "\r\n" || e == "\n" || (e == "\r" && (b == "" || b[0] != '\n'))
  }

  lemma FirstLineEnd(e: string, b: string)
    requires IsLineEnd(e, b)
    ensures OneLine(e + b) == " " + OneLine(b)
  {
    assert (e + b)[|e|..] == b;
  }

  /** Every line end, of either kind, becomes one space. */
  lemma {:induction false} LineEnds(a: string, e: string, b: string)
    requires '\r' !in a && '\n' !in a && IsLineEnd(e, b)
    ensures OneLine(a + e + b) == a + " " + OneLine(b)
  {
    hide OneLine, IsLineEnd;
    if a != "" {
      LineEnds(a[1..], e, b);
      assert a[0] in a;
      OneLetter(a, e + b);
      assert a[1..] + (e + b) == a[1..] + e + b && a + (e + b) == a + e + b;
      assert [a[0]] + (a[1..] + " " + OneLine(b)) == a + " " + OneLine(b);
    } else {
      FirstLineEnd(e, b);
      assert a + e + b == e + b && a + " " + OneLine(b) == " " + OneLine(b);
    }
  }

  predicate Clean(c: char) {
    c != '|' && c != '~' && c != '{' && c != '\r' && c != '\n'
  }

  lemma {:induction false} CleanKept(text: string)
    requires forall i :: 0 <= i < |text| ==> Clean(text[i])
    ensures OneLine(text) == text && Allowed(text) == text
  {
    if text != "" {
      assert Clean(text[0]);
      var rest := text[1..];
      forall i | 0 <= i < |rest|
        ensures Clean(rest[i])
      {
        assert rest[i] == text[i + 1];
      }
      CleanKept(rest);
      assert [text[0]] + rest == text;
    }
  }

  /** A clean text is sent as it is. */
  lemma CleanStays(text: string)
    requires |text| <= 67 && forall i :: 0 <= i < |text| ==> Clean(text[i])
    ensures Sanitized(text) == text
  {
    CleanKept(text);
  }

  /** What goes out: a colon, the callsign in capitals filled up with spaces to nine characters, a colon, and the text
      with the number behind a brace, "ack" or "rej". */
  lemma FieldIs(call: string, text: string, msgno: string)
    requires |Normal(call)| <= 9
    ensures var head := ":" + Normal(call) + seq(9 - |Normal(call)|, _ => ' ') + ":";
      && Format(call, text, "") == head + Sanitized(text)
      && (1 <= |msgno| <= 5 ==>
        && Format(call, text, msgno) == head + Sanitized(text) + "{" + msgno
        && FormatAck(call, msgno) == head + "ack" + msgno && FormatReject(call, msgno) == head + "rej" + msgno)
  {
    hide Normal, Sanitized;
    assert Addressee(call) == Normal(call) + seq(9 - |Normal(call)|, _ => ' ');
  }

  /** The three parts of a formatted field. */
  lemma FieldParts(call: string, rest: string)
    ensures var info := ":" + Addressee(call) + ":" + rest;
      |info| >= 11 && info[0] == ':' && info[10] == ':' && info[1..10] == Addressee(call) && info[11..] == rest
  {
    hide Normal;
  }

  /** A brace in the rest rules out a receipt. */
  lemma BraceIsNoReceipt(word: string, rest: string)
    requires '{' in rest && '{' !in word
    ensures Receipt(word, rest) == None
  {
    if |rest| >= |word| && rest[..|word|] == word {
      var s := rest[|word|..];
      var k := Run(s);
      assert rest == word + s;
      var i :| 0 <= i < |s| && s[i] == '{';
      assert i < k ==> IsAlnum(s[..k][i]);
      var closed := k < |s| && s[k] == '}';
      var tail := if closed then s[k + 1..] else s[k..];
      assert tail[if closed then i - k - 1 else i - k] == '{';
    }
  }

  lemma PlainNumber(msgno: string)
    requires IsNumber(msgno)
    ensures Strip(msgno) == msgno && '{' !in msgno && Cut(msgno, MSGNO_MAX_LEN) == msgno
  {
  }

  /** A numbered message comes back: the callsign, the text as far as it may be sent, and the number; whatever the
      text. */
  lemma MessageRoundTrip(call: string, text: string, msgno: string)
    requires ValidCall(call) && IsNumber(msgno)
    ensures Parse(Format(call, text, msgno)) == Message(Normal(call), Sanitized(text), Some(msgno))
  {
    hide Normal, Addressee, ValidCall, Sanitized, Receipt, Strip, IsNumber, LastBrace;
    var body := Sanitized(text);
    var rest := body + "{" + msgno;
    PlainNumber(msgno);
    NumberNotEmpty(msgno);
    assert Format(call, text, msgno) == ":" + Addressee(call) + ":" + rest;
    FieldParts(call, rest);
    AddresseeBack(call);
    assert rest[|body|] == '{';
    BraceIsNoReceipt("ack", rest);
    BraceIsNoReceipt("rej", rest);
    LastBraceIs(body, msgno);
    assert rest[..|body|] == body && rest[|body| + 1..] == msgno;
  }

  lemma NumberNotEmpty(msgno: string)
    requires IsNumber(msgno)
    ensures msgno != ""
  {
  }

  /** A text without a number comes back as a message if and only if it does not look like a receipt: "ack7" does. */
  lemma UnnumberedRoundTrip(call: string, text: string)
    requires ValidCall(call)
    ensures Parse(Format(call, text, "")) == Message(Normal(call), Sanitized(text), None)
      <==> Receipt("ack", Sanitized(text)).None? && Receipt("rej", Sanitized(text)).None?
  {
    hide Normal, Addressee, ValidCall, Sanitized, Receipt, Strip, Forbidden, LastBrace;
    var rest := Sanitized(text);
    assert Format(call, text, "") == ":" + Addressee(call) + ":" + rest;
    FieldParts(call, rest);
    AddresseeBack(call);
    SanitizedClean(text);
    BraceIsForbidden();
    NoBrace(rest);
  }

  /** The text "ack7" without a number is taken for an acknowledgement of message 7. */
  lemma TakenForReceipt(call: string)
    requires ValidCall(call)
    ensures Parse(Format(call, "ack7", "")) == Ack(Normal(call), "7")
  {
    hide Normal, Addressee, ValidCall, Receipt, Strip, Sanitized;
    CleanStays("ack7");
    assert Format(call, "ack7", "") == ":" + Addressee(call) + ":" + "ack7";
    FieldParts(call, "ack7");
    AddresseeBack(call);
    ReceiptIs("ack", "7");
    assert "ack" + "7" == "ack7";
  }

  lemma BraceIsForbidden()
    ensures Forbidden('{')
  {
  }

  /** A receipt comes back, and the two kinds are told apart. */
  lemma ReceiptRoundTrip(call: string, msgno: string)
    requires ValidCall(call) && IsNumber(msgno)
    ensures Parse(FormatAck(call, msgno)) == Ack(Normal(call), msgno)
    ensures Parse(FormatReject(call, msgno)) == Reject(Normal(call), msgno)
  {
    hide Normal, Addressee, ValidCall, Strip, Receipt, IsNumber;
    PlainNumber(msgno);
    assert FormatAck(call, msgno) == ":" + Addressee(call) + ":" + ("ack" + msgno);
    assert FormatReject(call, msgno) == ":" + Addressee(call) + ":" + ("rej" + msgno);
    FieldParts(call, "ack" + msgno);
    FieldParts(call, "rej" + msgno);
    AddresseeBack(call);
    ReceiptIs("ack", msgno);
    ReceiptIs("rej", msgno);
    OtherWord(msgno);
  }

  lemma ReceiptIs(word: string, msgno: string)
    requires IsNumber(msgno)
    ensures Receipt(word, word + msgno) == Some(msgno)
  {
    assert (word + msgno)[..|word|] == word && (word + msgno)[|word|..] == msgno;
    assert msgno[..|msgno|] == msgno;
  }

  /** The closing brace that some stations send, and spaces behind it, do not matter. */
  lemma ClosingBrace(word: string, msgno: string, blank: string)
    requires IsNumber(msgno) && AllSpace(blank)
    ensures Receipt(word, word + msgno + "}" + blank) == Some(msgno)
    ensures Receipt(word, word + msgno + blank) == Some(msgno)
  {
    hide IsSpace, Run, IsAlnum, AllSpace;
    var s, t := msgno + "}" + blank, msgno + blank;
    assert (word + msgno + "}" + blank)[..|word|] == word && (word + msgno + "}" + blank)[|word|..] == s;
    assert (word + msgno + blank)[..|word|] == word && (word + msgno + blank)[|word|..] == t;
    BraceNoAlnum(blank);
    RunIs(msgno, "}" + blank);
    assert s == msgno + ("}" + blank) && s[|msgno|..] == "}" + blank;
    assert s[|msgno| + 1..] == blank && s[..|msgno|] == msgno;
    SpaceNoAlnum(blank);
    RunIs(msgno, blank);
    assert t[|msgno|..] == blank && t[..|msgno|] == msgno;
  }

  lemma {:induction false} RunIs(a: string, b: string)
    requires AllAlnum(a) && (b == "" || !IsAlnum(b[0]))
    ensures Run(a + b) == |a|
  {
    if a == "" {
      assert a + b == b;
    } else {
      assert (a + b)[1..] == a[1..] + b;
      RunIs(a[1..], b);
    }
  }

  lemma BraceNoAlnum(rest: string)
    ensures !IsAlnum(("}" + rest)[0])
  {
  }

  lemma SpaceNoAlnum(blank: string)
    requires AllSpace(blank)
    ensures blank == "" || (!IsAlnum(blank[0]) && blank[0] != '}')
  {
  }

  /** What stands behind the last brace is a number only if it has one to five letters and digits. Otherwise it stays
      part of the text. */
  lemma BraceInText(call: string, body: string, rest: string)
    requires ValidCall(call) && '{' !in rest && (Strip(rest) == "" || |Strip(rest)| > 5)
    ensures Parse(":" + Addressee(call) + ":" + body + "{" + rest) == Message(Normal(call), body + "{" + rest, None)
  {
    hide Normal, Addressee, ValidCall, Receipt, Strip, LastBrace;
    var t := body + "{" + rest;
    assert ":" + Addressee(call) + ":" + body + "{" + rest == ":" + Addressee(call) + ":" + t;
    FieldParts(call, t);
    AddresseeBack(call);
    assert t[|body|] == '{';
    BraceIsNoReceipt("ack", t);
    BraceIsNoReceipt("rej", t);
    LastBraceIs(body, rest);
    assert t[|body| + 1..] == rest;
  }

  lemma OtherWord(msgno: string)
    ensures Receipt("ack", "rej" + msgno) == None
  {
    assert ("rej" + msgno)[..3] == "rej";
    assert "rej"[0] == 'r' && "ack"[0] == 'a';
  }

  // ---------------------------------------------------------------- message numbers

  const NUMBERS: nat := 99999

  /** `MsgNoGen`: the number issued after `k` others, starting from `value`. */
  function Issued(value: nat, k: nat): nat {
    if k == 0 then value else Issued(value, k - 1) % NUMBERS + 1
  }

  lemma OneOn(x: nat)
    ensures (x % NUMBERS + 1) % NUMBERS == (x + 1) % NUMBERS
  {
    var q, r := x / NUMBERS, x % NUMBERS;
    assert x + 1 == NUMBERS * q + (r + 1);
  }

  lemma {:induction false} IssuedIs(value: nat, k: nat)
    requires 1 <= value <= NUMBERS
    ensures Issued(value, k) == (value - 1 + k) % NUMBERS + 1
  {
    if k > 0 {
      IssuedIs(value, k - 1);
      OneOn(value - 1 + (k - 1));
    }
  }

  lemma NumberExamples()
    ensures IsNumber("1") && IsNumber("99999") && IsNumber("aZ09b")
    ensures !IsNumber("") && !IsNumber("123456") && !IsNumber("1-2")
    ensures Issued(1, 1) == 2 && Issued(99999, 1) == 1
  {
    assert "aZ09b"[0] == 'a' && "1-2"[1] == '-';
    assert Issued(1, 0) == 1 && Issued(99999, 0) == 99999;
  }

  /** The numbers issued are message numbers, and the same one comes again only after 99999 others. */
  lemma NumbersDiffer(value: nat, j: nat, k: nat)
    requires 1 <= value <= 99999 && j < k < j + 99999
    ensures IsNumber(Decimal(Issued(value, j)))
    ensures Decimal(Issued(value, j)) != Decimal(Issued(value, k))
  {
    hide Decimal, Issued, IsNumber;
    IssuedIs(value, j);
    IssuedIs(value, k);
    DecimalIsNumber(Issued(value, j));
    DecimalParses(Issued(value, j));
    DecimalParses(Issued(value, k));
    Cycle(value - 1 + j, k - j);
  }

  lemma Cycle(x: nat, d: nat)
    requires 0 < d < NUMBERS
    ensures (x + d) % NUMBERS != x % NUMBERS
  {
  }

  lemma DecimalIsNumber(n: nat)
    requires n <= NUMBERS
    ensures IsNumber(Decimal(n))
  {
    hide Decimal;
    assert Ten(2) == 100 && Ten(3) == 1000 && Ten(4) == 10000 && Ten(5) == 100000;
    DecimalAlnum(n);
    DecimalShort(n, 5);
  }

  function Ten(k: nat): nat {
    if k == 0 then 1 else 10 * Ten(k - 1)
  }

  lemma {:induction false} DecimalShort(n: nat, k: nat)
    requires n < Ten(k) && k > 0
    ensures |Decimal(n)| <= k
  {
    if n >= 10 {
      DecimalShort(n / 10, k - 1);
    }
  }

  lemma {:induction false} DecimalAlnum(n: nat)
    ensures AllAlnum(Decimal(n)) && Decimal(n) != ""
  {
    if n >= 10 {
      DecimalAlnum(n / 10);
    }
  }
}
