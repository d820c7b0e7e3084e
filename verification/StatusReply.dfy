/** The firmware's own answer to a device.status request: recognising the request
    in a report, reading its id, and the text of the reply. */
module StatusReply {
  import opened Bytes

  const MAX_TEXT: nat := 60
  const JSON_BYTES: nat := 128

  const LF: byte := 0x0a
  const CR: byte := 0x0d
  const SPACE: byte := 0x20

  /** The text device.status. */
  const NEEDLE: seq<byte> := [
    0x64, 0x65, 0x76, 0x69, 0x63, 0x65, 0x2e, 0x73, 0x74, 0x61, 0x74, 0x75, 0x73]

  /** The text "id": with its quotes. */
  const ID_KEY: seq<byte> := [0x22, 0x69, 0x64, 0x22, 0x3a]

  /** The reply up to the id: version, profile and layer, battery. */
  const OPENING: seq<byte> := [
    0x7b, 0x22, 0x72, 0x65, 0x73, 0x75, 0x6c, 0x74, 0x22, 0x3a, 0x7b, 0x22, 0x76, 0x65, 0x72, 0x73, 0x69, 0x6f,
    0x6e, 0x22, 0x3a, 0x22, 0x30, 0x2e, 0x34, 0x2e, 0x31, 0x22, 0x2c]
  const PLACE: seq<byte> := [
    0x22, 0x70, 0x72, 0x6f, 0x66, 0x69, 0x6c, 0x65, 0x5f, 0x69, 0x6e, 0x64, 0x65, 0x78, 0x22, 0x3a, 0x30, 0x2c,
    0x22, 0x6c, 0x61, 0x79, 0x65, 0x72, 0x5f, 0x69, 0x6e, 0x64, 0x65, 0x78, 0x22, 0x3a, 0x30, 0x2c]
  const POWER: seq<byte> := [
    0x22, 0x62, 0x61, 0x74, 0x74, 0x65, 0x72, 0x79, 0x22, 0x3a, 0x31, 0x30, 0x30, 0x2c, 0x22, 0x69, 0x73, 0x5f,
    0x63, 0x68, 0x61, 0x72, 0x67, 0x69, 0x6e, 0x67, 0x22, 0x3a, 0x74, 0x72, 0x75, 0x65, 0x7d, 0x2c, 0x22, 0x69,
    0x64, 0x22, 0x3a]

  type Report = r: seq<byte> | |r| == 64 witness seq(64, _ => 0)

  /** The bytes a report declares. */
  function Declared(report: Report): seq<byte>
    requires report[2] <= MAX_TEXT
  {
    report[3..3 + report[2]]
  }

  predicate OccursAt(s: seq<byte>, needle: seq<byte>, i: nat) {
    i + |needle| <= |s| && s[i..i + |needle|] == needle
  }

  /** A report asks for the status when its text mentions it. A report whose
      61 bytes are all used is never taken for a request. */
  predicate Asks(report: Report) {
    report[2] <= MAX_TEXT && exists i | 0 <= i <= report[2] :: OccursAt(Declared(report), NEEDLE, i)
  }

  predicate IsDigit(b: byte) {
    0x30 <= b <= 0x39
  }

  function AfterSpaces(s: seq<byte>): seq<byte>
    decreases |s|
  {
    if s != [] && s[0] == SPACE then AfterSpaces(s[1..]) else s
  }

  /** The number that s starts with, appended to the digits read so far. */
  function Number(s: seq<byte>, value: nat): nat
    decreases |s|
  {
    if s != [] && IsDigit(s[0]) then Number(s[1..], value * 10 + (s[0] - 0x30)) else value
  }

  /** The number after the first id key; 1 when there is none. */
  function ParseId(s: seq<byte>): nat
    decreases |s|
  {
    if |s| < |ID_KEY| then 1
    else if s[..|ID_KEY|] == ID_KEY then Number(AfterSpaces(s[|ID_KEY|..]), 0)
    else ParseId(s[1..])
  }

  function Decimal(n: nat): (digits: seq<byte>)
    ensures digits != [] && forall d | d in digits :: IsDigit(d)
    decreases n
  {
    (if n < 10 then [] else Decimal(n / 10)) + [0x30 + n % 10]
  }

  /** The JSON text of the reply, without its line end. */
  function Reply(id: nat): seq<byte> {
    OPENING + PLACE + POWER + Decimal(id) + [0x7d]
  }

  // ---- The reply is one line ----

  /** No line end anywhere. */
  predicate Plain(s: seq<byte>) {
    forall i | 0 <= i < |s| :: s[i] != CR && s[i] != LF
  }

  lemma PlainOpening()
    ensures Plain(OPENING)
  {}

  lemma PlainPlace()
    ensures Plain(PLACE)
  {}

  lemma PlainPower()
    ensures Plain(POWER)
  {}

  lemma PlainAppend(s: seq<byte>, t: seq<byte>)
    requires Plain(s) && Plain(t)
    ensures Plain(s + t)
  {}

  lemma ReplyPlain(id: nat)
    ensures Plain(Reply(id)) && |Reply(id)| >= 104
  {
    hide Plain;
    PlainOpening();
    PlainPlace();
    PlainPower();
    PlainAppend(OPENING, PLACE);
    PlainAppend(OPENING + PLACE, POWER);
    assert Plain(Decimal(id)) by { DigitsPlain(Decimal(id)); }
    PlainAppend(OPENING + PLACE + POWER, Decimal(id));
    assert Plain([0x7d]) by { LastPlain(); }
    PlainAppend(OPENING + PLACE + POWER + Decimal(id), [0x7d]);
  }

  lemma DigitsPlain(digits: seq<byte>)
    requires forall d | d in digits :: IsDigit(d)
    ensures Plain(digits)
  {
    forall i | 0 <= i < |digits| ensures digits[i] != CR && digits[i] != LF {
      assert digits[i] in digits;
    }
  }

  lemma LastPlain()
    ensures Plain([0x7d])
  {}

  // ---- The reply carries the id of the request ----

  /** Reading a printed number back stops at the first byte that is no digit. */
  lemma {:induction false} NumberOfDecimal(n: nat, t: seq<byte>)
    ensures Number(Decimal(n) + t, 0) == Number(t, n)
    decreases n
  {
    var last: seq<byte> := [0x30 + n % 10];
    assert (last + t)[1..] == t;
    if n < 10 {
      assert Decimal(n) + t == last + t;
    } else {
      assert Decimal(n) + t == Decimal(n / 10) + (last + t);
      NumberOfDecimal(n / 10, last + t);
    }
  }

  lemma {:induction false} SpacesSkipped(spaces: seq<byte>, t: seq<byte>)
    requires forall i | 0 <= i < |spaces| :: spaces[i] == SPACE
    requires t != [] && t[0] != SPACE
    ensures AfterSpaces(spaces + t) == t
    decreases |spaces|
  {
    if spaces == [] {
      assert spaces + t == t;
    } else {
      assert (spaces + t)[1..] == spaces[1..] + t;
      SpacesSkipped(spaces[1..], t);
    }
  }

  lemma {:induction false} FirstKey(before: seq<byte>, later: seq<byte>)
    requires forall i | 0 <= i < |before| :: !OccursAt(before + ID_KEY + later, ID_KEY, i)
    ensures ParseId(before + ID_KEY + later) == Number(AfterSpaces(later), 0)
    decreases |before|
  {
    var s := before + ID_KEY + later;
    if before == [] {
      assert s[..|ID_KEY|] == ID_KEY && s[|ID_KEY|..] == later;
    } else {
      assert !OccursAt(s, ID_KEY, 0);
      assert s[1..] == before[1..] + ID_KEY + later;
      forall i | 0 <= i < |before[1..]| ensures !OccursAt(s[1..], ID_KEY, i) {
        assert !OccursAt(s, ID_KEY, i + 1);
      }
      FirstKey(before[1..], later);
    }
  }

  /** A request whose first id key is followed by a printed number gets a reply
      with that number. */
  lemma IdEchoed(before: seq<byte>, spaces: seq<byte>, n: nat, after: seq<byte>)
    requires forall i | 0 <= i < |before| :: !OccursAt(before + ID_KEY + (spaces + (Decimal(n) + after)), ID_KEY, i)
    requires forall i | 0 <= i < |spaces| :: spaces[i] == SPACE
    requires after == [] || !IsDigit(after[0])
    ensures ParseId(before + ID_KEY + (spaces + (Decimal(n) + after))) == n
  {
    hide OccursAt, Number, AfterSpaces, ParseId;
    var number := Decimal(n) + after;
    assert number[0] in Decimal(n);
    FirstKey(before, spaces + number);
    SpacesSkipped(spaces, number);
    NumberOfDecimal(n, after);
    NumberEnds(after, n);
  }

  lemma NumberEnds(t: seq<byte>, value: nat)
    requires t == [] || !IsDigit(t[0])
    ensures Number(t, value) == value
  {}

  // ---- In place ----

  lemma Window(s: seq<byte>, from: nat, to: nat, i: nat, n: nat)
    requires from + i + n <= to <= |s|
    ensures s[from..to][i..i + n] == s[from + i..from + i + n]
  {
    var inner, outer := s[from..to][i..i + n], s[from + i..from + i + n];
    forall k | 0 <= k < n ensures inner[k] == outer[k] {}
  }

  /** Looks for the needle at each offset of the declared text. */
  method PayloadContains(report: Report) returns (found: bool)
    ensures found == Asks(report)
  {
    var length := report[2];
    if length > MAX_TEXT {
      return false;
    }
    if length < |NEEDLE| {
      return false;
    }
    var i := 3;
    while i + |NEEDLE| <= 3 + length
      invariant 3 <= i <= 3 + length
      invariant forall k | 0 <= k < i - 3 :: !OccursAt(Declared(report), NEEDLE, k)
    {
      Window(report, 3, 3 + length, i - 3, |NEEDLE|);
      if report[i..i + |NEEDLE|] == NEEDLE {
        assert OccursAt(Declared(report), NEEDLE, i - 3);
        return true;
      }
      i := i + 1;
    }
    return false;
  }

  method PayloadParseId(report: Report) returns (id: nat)
    requires report[2] <= MAX_TEXT
    ensures id == ParseId(Declared(report))
  {
    hide Number, AfterSpaces;
    var payload := Declared(report);
    var i := 0;
    assert payload[0..] == payload;
    while i + 4 < |payload|
      invariant i <= |payload| && ParseId(payload[i..]) == ParseId(payload)
    {
      assert payload[i..][..|ID_KEY|] == payload[i..i + |ID_KEY|];
      if payload[i..i + |ID_KEY|] == ID_KEY {
        assert payload[i..][|ID_KEY|..] == payload[i + 5..];
        id := ReadNumber(payload, i + 5);
        return;
      }
      assert payload[i..][1..] == payload[i + 1..];
      i := i + 1;
    }
    return 1;
  }

  /** Skips spaces and reads digits. */
  method ReadNumber(payload: seq<byte>, start: nat) returns (value: nat)
    requires start <= |payload|
    ensures value == Number(AfterSpaces(payload[start..]), 0)
  {
    var j := start;
    while j < |payload| && payload[j] == SPACE
      invariant j <= |payload| && AfterSpaces(payload[j..]) == AfterSpaces(payload[start..])
    {
      assert payload[j..][1..] == payload[j + 1..];
      j := j + 1;
    }
    ghost var digits := payload[j..];
    value := 0;
    while j < |payload| && IsDigit(payload[j])
      invariant j <= |payload| && Number(payload[j..], value) == Number(digits, 0)
    {
      assert payload[j..][1..] == payload[j + 1..];
      value := value * 10 + (payload[j] - 0x30);
      j := j + 1;
    }
  }
}
