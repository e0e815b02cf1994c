/** AX.25 addresses and frames: `encode_call`, `decode_call`, `make_frame` and `split_frame` of ax25.py. */
module Ax25Frame {
  import opened Prelude
  import opened Strings

  // ---------------------------------------------------------------- addresses

  /** `base[:6].ljust(6)` */
  function Padded(base: string): (r: string)
    ensures |r| == 6
  {
    seq(6, i => if 0 <= i < |base| then base[i] else ' ')
  }

  function Shifted(s: string): (r: bytes)
    ensures |r| == |s|
  {
    seq(|s|, i requires 0 <= i < |s| => s[i] as nat * 2 % 0x100)
  }

  /** `encode_call`, or nothing where the SSID is no number. The fields of the last byte do not overlap, so `|` is a
      sum. */
  function EncodeCall(text: string, last: bool, command: bool): (r: Option<bytes>)
    ensures r.Some? ==> |r.value| == 7
  {
    var call := Strip(Upper(text));
    var k := Dash(call);
    var digits := if k < |call| then call[k + 1..] else "";
    match if digits == "" then Some(0) else ParseInt(digits)
    case None => None
    case Some(ssid) =>
      var c: nat := if command then 0x80 else 0;
      var l: nat := if last then 1 else 0;
      Some(Shifted(Padded(call[..k])) + [0x60 + ssid % 16 * 2 + c + l])
  }

  function Unshifted(s: bytes): (r: string)
    ensures |r| == |s|
  {
    seq(|s|, i requires 0 <= i < |s| => (s[i] / 2) as char)
  }

  /** `decode_call` */
  function DecodeCall(a: bytes): string
    requires |a| == 7
  {
    var base, ssid := Strip(Unshifted(a[..6])), a[6] / 2 % 16;
    if ssid != 0 then base + "-" + Decimal(ssid) else base
  }

  /** A callsign in canonical form: 1 to 6 capitals and digits, and an SSID from 0 to 15, of which 0 is not written. */
  datatype Call = Call(base: string, ssid: nat)

  predicate Canonical(c: Call) {
    && 1 <= |c.base| <= 6
    && c.ssid < 16
    && forall i :: 0 <= i < |c.base| ==> 'A' <= c.base[i] <= 'Z' || IsDigit(c.base[i])
  }

  function Text(c: Call): string {
    if c.ssid != 0 then c.base + "-" + Decimal(c.ssid) else c.base
  }

  lemma PlainText(c: Call)
    requires Canonical(c)
    ensures Plain(Text(c)) && Strip(Upper(Text(c))) == Text(c)
  {
    hide Decimal;
    PlainDecimal(c.ssid);
    PlainUnchanged(Text(c));
  }

  lemma {:induction false} DashAt(base: string, rest: string)
    requires forall i :: 0 <= i < |base| ==> base[i] != '-'
    ensures Dash(base) == |base| && Dash(base + "-" + rest) == |base|
  {
    if base == "" {
      assert base + "-" + rest == "-" + rest;
    } else {
      DashAt(base[1..], rest);
      assert (base + "-" + rest)[1..] == base[1..] + "-" + rest;
    }
  }

  lemma BaseRoundTrip(c: Call)
    requires Canonical(c)
    ensures Strip(Unshifted(Shifted(Padded(c.base)))) == c.base
  {
    hide Strip, Decimal;
    var s, t := Padded(c.base), c.base + seq(6 - |c.base|, i => ' ');
    assert s == t;
    forall i | 0 <= i < 6
      ensures Unshifted(Shifted(s))[i] == s[i]
    {
      assert s[i] < 128 as char;
    }
    assert Unshifted(Shifted(s)) == s;
    StripPadding(c.base, 6 - |c.base|);
  }

  /** `encode_call` on a canonical callsign. */
  lemma EncodesCall(c: Call, last: bool, command: bool)
    requires Canonical(c)
    ensures EncodeCall(Text(c), last, command) ==
      Some(Shifted(Padded(c.base)) + [0x60 + c.ssid * 2 + (if command then 0x80 else 0) + if last then 1 else 0])
  {
    hide Strip, Upper, Decimal, ParseInt, Shifted, Padded, Plain;
    PlainText(c);
    DashAt(c.base, Decimal(c.ssid));
    DecimalParses(c.ssid);
    var call := Text(c);
    if c.ssid != 0 {
      assert call[..|c.base|] == c.base && call[|c.base| + 1..] == Decimal(c.ssid);
      NotEmpty(c.ssid);
    } else {
      assert call[..|c.base|] == c.base;
    }
  }

  lemma NotEmpty(n: nat)
    ensures Decimal(n) != ""
  {
  }

  /** A canonical callsign survives the address field, and the extension bit is where the reader looks for it. */
  lemma CallRoundTrip(c: Call, last: bool, command: bool)
    requires Canonical(c)
    ensures var a := EncodeCall(Text(c), last, command);
      a.Some? && DecodeCall(a.value) == Text(c) && a.value[6] % 2 == if last then 1 else 0
  {
    hide Strip, Decimal, Shifted, Padded, Unshifted, EncodeCall;
    EncodesCall(c, last, command);
    BaseRoundTrip(c);
    var a := EncodeCall(Text(c), last, command).value;
    assert a[..6] == Shifted(Padded(c.base));
    LastByte(c.ssid, last, command);
  }

  lemma LastByte(ssid: nat, last: bool, command: bool)
    requires ssid < 16
    ensures var b := 0x60 + ssid * 2 + (if command then 0x80 else 0) + if last then 1 else 0;
      b / 2 % 16 == ssid && b % 2 == if last then 1 else 0
  {
  }

  // ---------------------------------------------------------------- frames

  const MAX_ADDRESSES: nat := 11

  /** Why `split_frame` raises. */
  datatype Error = Short | Truncated | TooMany | MissingControl | MissingPid

  datatype Parsed = Parsed(dest: string, src: string, digis: seq<string>, ctrl: byte, pid: Option<byte>, payload: bytes)

  datatype Result = Ok(value: Parsed) | Err(error: Error)

  /** Frames of these kinds carry a PID: I frames and UI frames. */
  predicate NeedsPid(ctrl: byte) {
    ctrl % 2 == 0 || ctrl == 0x03
  }

  /** The address field from index `k` on. The destination or the source has the command bit; the last has the
      extension bit. */
  function Addresses(calls: seq<string>, k: nat, response: bool): Option<bytes>
    requires k <= |calls|
    decreases |calls| - k
  {
    if k == |calls| then Some([]) else
      var a := EncodeCall(calls[k], k == |calls| - 1, if response then k == 1 else k == 0);
      var rest := Addresses(calls, k + 1, response);
      if a.None? || rest.None? then None else Some(a.value + rest.value)
  }

  function Present(digis: seq<string>): seq<string> {
    if |digis| == 0 then [] else
      Present(digis[..|digis| - 1]) + if Strip(digis[|digis| - 1]) != "" then [digis[|digis| - 1]] else []
  }

  function PidBytes(pid: Option<byte>): bytes {
    if pid.Some? then [pid.value] else []
  }

  /** `make_frame`, or nothing where an SSID is no number. */
  function Made(dest: string, src: string, ctrl: byte, payload: bytes, pid: Option<byte>, response: bool,
                digis: seq<string>): Option<bytes>
  {
    match Addresses([dest, src] + Present(digis), 0, response)
    case None => None
    case Some(field) => Some(field + [ctrl] + PidBytes(pid) + payload)
  }

  method MakeFrame(dest: string, src: string, ctrl: byte, payload: bytes, pid: Option<byte>, response: bool,
                   digis: seq<string>)
    returns (r: Option<bytes>)
    ensures r == Made(dest, src, ctrl, payload, pid, response, digis)
  {
    hide EncodeCall, Strip, Addresses;
    var present: seq<string> := [];
    for i := 0 to |digis|
      invariant present == Present(digis[..i])
    {
      assert digis[..i + 1][..i] == digis[..i];
      if Strip(digis[i]) != "" {
        present := present + [digis[i]];
      }
    }
    assert digis[..|digis|] == digis;
    var calls := [dest, src] + present;
    assert calls[0] == dest && calls[1] == src;
    var a := EncodeCall(dest, false, !response);
    var b := EncodeCall(src, present == [], response);
    ghost var whole := Addresses(calls, 0, response);
    AddressStep(calls, 0, response, []);
    JoinedNothing(whole);
    if a.None? {
      return None;
    }
    AddressStep(calls, 1, response, [] + a.value);
    if b.None? {
      return None;
    }
    assert [] + a.value == a.value;
    var out := a.value + b.value;
    var k := 0;
    while k < |present|
      invariant k <= |present| && whole == Joined(out, Addresses(calls, k + 2, response))
    {
      assert calls[k + 2] == present[k];
      var d := EncodeCall(present[k], k == |present| - 1, false);
      AddressStep(calls, k + 2, response, out);
      if d.None? {
        return None;
      }
      out := out + d.value;
      k := k + 1;
    }
    NoAddresses(calls, response);
    assert out + [] == out;
    assert whole == Some(out);
    assert out + [ctrl] + [] == out + [ctrl];
    out := out + [ctrl];
    if pid.Some? {
      out := out + [pid.value];
    }
    out := out + payload;
    r := Some(out);
  }

  function Joined(a: bytes, b: Option<bytes>): Option<bytes> {
    if b.None? then None else Some(a + b.value)
  }

  lemma JoinedNothing(b: Option<bytes>)
    ensures Joined([], b) == b
  {
    if b.Some? {
      assert [] + b.value == b.value;
    }
  }

  lemma NoAddresses(calls: seq<string>, response: bool)
    ensures Addresses(calls, |calls|, response) == Some([])
  {
  }

  lemma AddressStep(calls: seq<string>, k: nat, response: bool, out: bytes)
    requires k < |calls|
    ensures var d := EncodeCall(calls[k], k == |calls| - 1, if response then k == 1 else k == 0);
      && (d.None? ==> Addresses(calls, k, response).None?)
      && (d.Some? ==>
            Joined(out, Addresses(calls, k, response)) == Joined(out + d.value, Addresses(calls, k + 1, response)))
  {
    hide EncodeCall;
    var d := EncodeCall(calls[k], k == |calls| - 1, if response then k == 1 else k == 0);
    var rest := Addresses(calls, k + 1, response);
    if d.Some? && rest.Some? {
      assert out + (d.value + rest.value) == out + d.value + rest.value;
    }
  }

  /** The rest of `split_frame` once the last address has been read. */
  function Finish(frame: bytes, i: nat, addrs: seq<string>): Result {
    if |addrs| < 2 || i >= |frame| then Err(MissingControl)
    else if !NeedsPid(frame[i]) then Ok(Parsed(addrs[0], addrs[1], addrs[2..], frame[i], None, frame[i + 1..]))
    else if i + 1 >= |frame| then Err(MissingPid)
    else Ok(Parsed(addrs[0], addrs[1], addrs[2..], frame[i], Some(frame[i + 1]), frame[i + 2..]))
  }

  /** The loop of `split_frame` from index `i` on. */
  function SplitFrom(frame: bytes, i: nat, addrs: seq<string>): Result
    decreases |frame| - i
  {
    if i + 7 > |frame| then Err(Truncated)
    else
      var a := frame[i..i + 7];
      var addrs1 := addrs + [DecodeCall(a)];
      if a[6] % 2 == 1 then Finish(frame, i + 7, addrs1)
      else if |addrs1| >= MAX_ADDRESSES then Err(TooMany)
      else SplitFrom(frame, i + 7, addrs1)
  }

  function Split(frame: bytes): Result {
    if |frame| < 15 then Err(Short) else SplitFrom(frame, 0, [])
  }

  method SplitFrame(frame: bytes) returns (r: Result)
    ensures r == Split(frame)
  {
    hide DecodeCall;
    if |frame| < 15 {
      return Err(Short);
    }
    var addrs: seq<string>, i := [], 0;
    while true
      invariant i <= |frame| && SplitFrom(frame, i, addrs) == Split(frame)
      decreases |frame| - i
    {
      if i + 7 > |frame| {
        return Err(Truncated);
      }
      var a := frame[i..i + 7];
      addrs := addrs + [DecodeCall(a)];
      i := i + 7;
      if a[6] % 2 == 1 { break; }
      if |addrs| > 10 {
        return Err(TooMany);
      }
    }
    if |addrs| < 2 || i >= |frame| {
      return Err(MissingControl);
    }
    var ctrl := frame[i];
    i := i + 1;
    var pid: Option<byte> := None;
    if ctrl % 2 == 0 || ctrl == 0x03 {
      if i >= |frame| {
        return Err(MissingPid);
      }
      pid := Some(frame[i]);
      i := i + 1;
    }
    r := Ok(Parsed(addrs[0], addrs[1], addrs[2..], ctrl, pid, frame[i..]));
  }

  // ---------------------------------------------------------------- round trip

  function Texts(calls: seq<Call>): (r: seq<string>)
    ensures |r| == |calls|
  {
    seq(|calls|, i requires 0 <= i < |calls| => Text(calls[i]))
  }

  predicate AllCanonical(calls: seq<Call>) {
    forall i :: 0 <= i < |calls| ==> Canonical(calls[i])
  }

  /** Canonical callsigns are encoded, 7 bytes each. */
  lemma {:induction false} AddressesEncoded(calls: seq<Call>, k: nat, response: bool)
    requires AllCanonical(calls) && k <= |calls|
    ensures var r := Addresses(Texts(calls), k, response); r.Some? && |r.value| == 7 * (|calls| - k)
    decreases |calls| - k
  {
    hide Text, EncodeCall, Canonical;
    if k < |calls| {
      AddressesEncoded(calls, k + 1, response);
      CallRoundTrip(calls[k], k == |calls| - 1, if response then k == 1 else k == 0);
    }
  }

  lemma AddressUnfolds(texts: seq<string>, k: nat, response: bool)
    requires k < |texts| && Addresses(texts, k, response).Some?
    ensures var a := EncodeCall(texts[k], k == |texts| - 1, if response then k == 1 else k == 0);
      var rest := Addresses(texts, k + 1, response);
      && a.Some? && rest.Some? && Addresses(texts, k, response).value == a.value + rest.value
      && (k == |texts| - 1 ==> rest.value == [])
  {
    hide EncodeCall;
  }

  lemma SplitStep(frame: bytes, i: nat, addrs: seq<string>)
    requires i + 7 <= |frame|
    ensures var a := frame[i..i + 7]; var addrs1 := addrs + [DecodeCall(a)];
      SplitFrom(frame, i, addrs) ==
      if a[6] % 2 == 1 then Finish(frame, i + 7, addrs1)
      else if |addrs1| >= MAX_ADDRESSES then Err(TooMany)
      else SplitFrom(frame, i + 7, addrs1)
  {
    hide DecodeCall, Finish;
  }

  /** Reading the address field: it stops at the last address, or gives up after eleven. */
  lemma {:induction false} SplitsAddresses(calls: seq<Call>, k: nat, response: bool, pre: bytes, tail: bytes)
    requires AllCanonical(calls) && k < |calls| && |pre| == 7 * k && k < MAX_ADDRESSES
    requires Addresses(Texts(calls), k, response).Some?
    ensures var frame := pre + Addresses(Texts(calls), k, response).value + tail;
      SplitFrom(frame, |pre|, Texts(calls)[..k]) ==
      if |calls| <= MAX_ADDRESSES then Finish(frame, 7 * |calls|, Texts(calls)) else Err(TooMany)
    decreases |calls| - k
  {
    hide Text, EncodeCall, Canonical, DecodeCall, Finish, SplitFrom, Addresses;
    var last := k == |calls| - 1;
    var texts := Texts(calls);
    AddressUnfolds(texts, k, response);
    var a := EncodeCall(texts[k], last, if response then k == 1 else k == 0).value;
    var rest := Addresses(texts, k + 1, response).value;
    var frame := pre + Addresses(texts, k, response).value + tail;
    CallRoundTrip(calls[k], last, if response then k == 1 else k == 0);
    assert frame == pre + a + (rest + tail) == (pre + a) + rest + tail;
    assert frame[7 * k..7 * k + 7] == a;
    assert texts[..k] + [texts[k]] == texts[..k + 1];
    SplitStep(frame, 7 * k, texts[..k]);
    if last {
      assert texts[..k + 1] == texts;
    } else if k + 1 < MAX_ADDRESSES {
      SplitsAddresses(calls, k + 1, response, pre + a, tail);
    }
  }

  lemma {:induction false} AllPresent(digis: seq<Call>)
    requires AllCanonical(digis)
    ensures Present(Texts(digis)) == Texts(digis)
  {
    hide Text, Canonical, Strip, Present;
    NonePresent();
    if |digis| > 0 {
      var n := |digis| - 1;
      AllPresent(digis[..n]);
      NotBlank(digis[n]);
      assert Texts(digis)[..n] == Texts(digis[..n]);
      PresentLast(Texts(digis));
    }
  }

  lemma NonePresent()
    ensures Present([]) == []
  {
  }

  lemma PresentLast(ts: seq<string>)
    requires |ts| > 0 && Present(ts[..|ts| - 1]) == ts[..|ts| - 1] && Strip(ts[|ts| - 1]) != ""
    ensures Present(ts) == ts
  {
    hide Strip, Present;
    PresentStep(ts);
    assert ts[..|ts| - 1] + [ts[|ts| - 1]] == ts;
  }

  lemma PresentStep(ts: seq<string>)
    requires |ts| > 0
    ensures Strip(ts[|ts| - 1]) != "" ==> Present(ts) == Present(ts[..|ts| - 1]) + [ts[|ts| - 1]]
  {
    hide Strip;
  }

  lemma NotBlank(c: Call)
    requires Canonical(c)
    ensures Strip(Text(c)) != ""
  {
    hide Strip, Decimal;
    PlainText(c);
    PlainDecimal(c.ssid);
    assert Upper(Text(c)) == Text(c);
  }

  /** `split_frame` gives back what was put into `make_frame` if and only if there are at most nine digipeaters and a
      PID is given exactly for the frames that carry one. */
  lemma FrameRoundTrip(dest: Call, src: Call, ctrl: byte, payload: bytes, pid: Option<byte>, response: bool,
                       digis: seq<Call>)
    requires Canonical(dest) && Canonical(src) && AllCanonical(digis)
    ensures var frame := Made(Text(dest), Text(src), ctrl, payload, pid, response, Texts(digis));
      && frame.Some?
      && (Split(frame.value) == Ok(Parsed(Text(dest), Text(src), Texts(digis), ctrl, pid, payload))
          <==> |digis| <= 9 && (pid.Some? <==> NeedsPid(ctrl)))
  {
    hide Text, Canonical, EncodeCall, DecodeCall, Addresses, Present, SplitFrom, NeedsPid;
    var calls := [dest, src] + digis;
    assert Texts(calls) == [Text(dest), Text(src)] + Texts(digis);
    AllPresent(digis);
    AddressesEncoded(calls, 0, response);
    var field := Addresses(Texts(calls), 0, response).value;
    var tail := [ctrl] + PidBytes(pid) + payload;
    var frame := field + [ctrl] + PidBytes(pid) + payload;
    SplitsAddresses(calls, 0, response, [], tail);
    assert [] + field + tail == frame;
    assert Texts(calls)[..0] == [] && Texts(calls)[2..] == Texts(digis);
    Finishes(field, Texts(calls), ctrl, pid, payload);
  }

  /** After the addresses come control, PID and payload, and they are told apart by the control byte alone. */
  lemma Finishes(field: bytes, addrs: seq<string>, ctrl: byte, pid: Option<byte>, payload: bytes)
    requires |addrs| >= 2
    ensures var frame := field + [ctrl] + PidBytes(pid) + payload;
      Finish(frame, |field|, addrs) == Ok(Parsed(addrs[0], addrs[1], addrs[2..], ctrl, pid, payload))
      <==> (pid.Some? <==> NeedsPid(ctrl))
  {
    hide NeedsPid;
    var frame := field + [ctrl] + PidBytes(pid) + payload;
    var i := |field|;
    assert frame[i] == ctrl;
    if pid.Some? {
      assert frame[i + 1] == pid.value && frame[i + 2..] == payload;
    } else {
      assert frame[i + 1..] == payload;
    }
  }

  // ---------------------------------------------------------------- byte by byte

  /** An address field (section 3.12 of AX.25 2.2): six characters shifted up by one bit, spaces behind the callsign;
      then two reserved ones, the SSID in bits 1 to 4, the command bit on top and the extension bit below. */
  predicate AddressIs(a: bytes, c: Call, command: bool, last: bool) {
    && |a| == 7 && |c.base| <= 6
    && (forall i: nat | i < 6 :: a[i] == if i < |c.base| then 2 * c.base[i] as int else 0x40)
    && a[6] == 0x60 + 2 * c.ssid + (if command then 0x80 else 0) + (if last then 1 else 0)
  }

  lemma AddressBytes(c: Call, command: bool, last: bool)
    requires Canonical(c)
    ensures var a := EncodeCall(Text(c), last, command); a.Some? && AddressIs(a.value, c, command, last)
  {
    hide EncodeCall;
    EncodesCall(c, last, command);
    var p := Padded(c.base);
    forall i: nat | i < 6
      ensures Shifted(p)[i] == if i < |c.base| then 2 * c.base[i] as int else 0x40
    {
      assert p[i] < 128 as char;
    }
  }

  lemma {:induction false} AddressAt(calls: seq<Call>, k: nat, j: nat, response: bool)
    requires AllCanonical(calls) && k <= j < |calls|
    ensures var r := Addresses(Texts(calls), k, response);
      && r.Some? && |r.value| == 7 * (|calls| - k)
      && AddressIs(r.value[7 * (j - k)..7 * (j - k) + 7], calls[j],
                   if response then j == 1 else j == 0, j == |calls| - 1)
    decreases j - k
  {
    hide Text, EncodeCall, Canonical, AddressIs;
    AddressesEncoded(calls, k, response);
    AddressUnfolds(Texts(calls), k, response);
    AddressesEncoded(calls, k + 1, response);
    var field, rest := Addresses(Texts(calls), k, response).value, Addresses(Texts(calls), k + 1, response).value;
    AddressBytes(calls[k], if response then k == 1 else k == 0, k == |calls| - 1);
    if j == k {
      assert field[..7] == EncodeCall(Texts(calls)[k], k == |calls| - 1, if response then k == 1 else k == 0).value;
    } else {
      AddressAt(calls, k + 1, j, response);
      assert field[7 * (j - k)..7 * (j - k) + 7] == rest[7 * (j - k - 1)..7 * (j - k - 1) + 7];
    }
  }

  /** A whole frame: destination, source and digipeaters, of which the destination is marked in a command and the
      source in a response, and the last ends the field; then control, PID and payload. */
  lemma FrameBytes(dest: Call, src: Call, ctrl: byte, payload: bytes, pid: Option<byte>, response: bool,
                   digis: seq<Call>, k: nat)
    requires Canonical(dest) && Canonical(src) && AllCanonical(digis)
    ensures var r := Made(Text(dest), Text(src), ctrl, payload, pid, response, Texts(digis));
      && r.Some? && |r.value| >= 14 + 7 * |digis|
      && AddressIs(r.value[..7], dest, !response, false)
      && AddressIs(r.value[7..14], src, response, digis == [])
      && (k < |digis| ==> AddressIs(r.value[14 + 7 * k..21 + 7 * k], digis[k], false, k == |digis| - 1))
      && r.value[14 + 7 * |digis|..] == [ctrl] + (if pid.Some? then [pid.value] else []) + payload
  {
    hide Text, Canonical, EncodeCall, Addresses, Present, AddressIs;
    var calls := [dest, src] + digis;
    assert Texts(calls) == [Text(dest), Text(src)] + Texts(digis);
    AllPresent(digis);
    AddressAt(calls, 0, 0, response);
    AddressAt(calls, 0, 1, response);
    var field := Addresses(Texts(calls), 0, response).value;
    var f := field + [ctrl] + PidBytes(pid) + payload;
    assert f[..7] == field[0..7] && f[7..14] == field[7..14];
    if k < |digis| {
      AddressAt(calls, 0, k + 2, response);
      assert f[14 + 7 * k..21 + 7 * k] == field[14 + 7 * k..21 + 7 * k];
    }
    assert f[14 + 7 * |digis|..] == [ctrl] + PidBytes(pid) + payload;
  }

  /** Which frames carry a PID: I frames, whose control byte is even, and UI frames, whose control byte is 03. */
  lemma PidBytesAre(ctrl: byte)
    ensures NeedsPid(ctrl) <==> ctrl % 2 == 0 || ctrl == 3
  {
  }

  /** A callsign may be written in any case and with space around it. */
  lemma EncodesAnyCase(pre: string, text: string, post: string, c: Call, last: bool, command: bool)
    requires Canonical(c) && Upper(text) == Text(c)
    requires Blank(pre) && Blank(post)
    ensures EncodeCall(pre + text + post, last, command) == EncodeCall(Text(c), last, command)
  {
    hide Text, Shifted, Padded, ParseInt, Dash, Strip, Plain;
    PlainText(c);
    UpperAround(pre, text, post);
    TextEnds(c);
    StripAround(pre, Text(c), post);
    assert Strip(Upper(Text(c))) == Text(c);
  }

  lemma TextEnds(c: Call)
    requires Canonical(c)
    ensures Text(c) != "" && !IsSpace(Text(c)[0]) && !IsSpace(Text(c)[|Text(c)| - 1])
  {
    hide Text, Decimal, Strip;
    PlainText(c);
    NotNothing(c);
  }

  lemma NotNothing(c: Call)
    requires Canonical(c)
    ensures Text(c) != ""
  {
    hide Decimal;
  }
}
