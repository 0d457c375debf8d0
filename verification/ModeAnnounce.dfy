/** The mode announcement: a name, a colon and a decimal id, printed by the mode nodes and read by the telemetry
    publisher, which remembers the id in one signed byte. */
module ModeAnnounce {
  import opened Options

  const INT_MAX := 2147483647

  // ---- printing ----

  function Digit(d: nat): char
    requires d < 10
  {
    '0' + d as char
  }

  function Decimal(n: nat): string {
    if n < 10 then [Digit(n)] else Decimal(n / 10) + [Digit(n % 10)]
  }

  function ToString(i: int): string {
    if i < 0 then "-" + Decimal(-i) else Decimal(i)
  }

  function Announcement(name: string, id: int): string {
    name + ":" + ToString(id)
  }

  // ---- reading ----

  /** Where the last colon is, or -1. */
  function LastColon(s: string): int {
    if s == "" then -1
    else if s[|s| - 1] == ':' then |s| - 1
    else LastColon(s[..|s| - 1])
  }

  predicate IsDigit(c: char) {
    '0' <= c <= '9'
  }

  predicate IsSpace(c: char) {
    c == ' ' || '\t' <= c <= '\r'
  }

  /** The value of the digits at the front of s, with `high` already read. */
  function DigitsValue(s: string, high: nat): nat {
    if s == "" || !IsDigit(s[0]) then high else DigitsValue(s[1..], high * 10 + (s[0] - '0') as nat)
  }

  function Unsigned(s: string): Option<nat> {
    if s == "" || !IsDigit(s[0]) then None else Some(DigitsValue(s, 0))
  }

  function SkipSpace(s: string): string {
    if s == "" || !IsSpace(s[0]) then s else SkipSpace(s[1..])
  }

  /** std::stoi: white space, a sign, digits, and whatever follows is ignored; nothing if there is no digit or the value
      does not fit. */
  function ParseInt(s: string): Option<int> {
    var t := SkipSpace(s);
    var negative := t != "" && t[0] == '-';
    var u := Unsigned(if t != "" && (t[0] == '-' || t[0] == '+') then t[1..] else t);
    if u.None? then None
    else
      var n: int := u.value;
      var v := if negative then -n else n;
      if -INT_MAX - 1 <= v <= INT_MAX then Some(v) else None
  }

  /** The cast to a signed byte. */
  function SignedByte(i: int): int
    requires 0 <= i <= 255
  {
    if i <= 127 then i else i - 256
  }

  /** What an announcement makes the publisher remember, if anything. */
  function Read(data: string): Option<(string, int)> {
    var sep := LastColon(data);
    if sep <= 0 || sep + 1 >= |data| then None
    else
      var id := ParseInt(data[sep + 1..]);
      if id.None? || id.value < 0 || id.value > 255 then None
      else Some((data[..sep], SignedByte(id.value)))
  }

  function OnAnnounce(modes: map<string, int>, data: string): map<string, int> {
    var r := Read(data);
    if r.None? then modes else modes[r.value.0 := r.value.1]
  }

  /** The set-mode handler finds a usable id: one that is cached and not negative. */
  predicate Selectable(modes: map<string, int>, name: string) {
    name in modes && modes[name] >= 0
  }

  // ---- the round trip ----

  lemma {:induction false} DecimalDigits(n: nat)
    ensures Decimal(n) != "" && forall k :: 0 <= k < |Decimal(n)| ==> IsDigit(Decimal(n)[k])
  {
    if n >= 10 {
      DecimalDigits(n / 10);
    }
  }

  lemma {:induction false} DigitsAppend(s: string, high: nat, c: char)
    requires IsDigit(c) && forall k :: 0 <= k < |s| ==> IsDigit(s[k])
    ensures DigitsValue(s + [c], high) == DigitsValue(s, high) * 10 + (c - '0') as nat
  {
    if s == "" {
      assert s + [c] == [c] && [c][1..] == "";
    } else {
      assert (s + [c])[1..] == s[1..] + [c];
      DigitsAppend(s[1..], high * 10 + (s[0] - '0') as nat, c);
    }
  }

  lemma {:induction false} DecimalValue(n: nat)
    ensures DigitsValue(Decimal(n), 0) == n
  {
    if n < 10 {
      assert [Digit(n)][1..] == "";
    } else {
      DecimalDigits(n / 10);
      DecimalValue(n / 10);
      DigitsAppend(Decimal(n / 10), 0, Digit(n % 10));
    }
  }

  lemma ParsePrinted(i: int)
    ensures ParseInt(ToString(i)) == if -INT_MAX - 1 <= i <= INT_MAX then Some(i) else None
  {
    var n: nat := if i < 0 then -i else i;
    DecimalDigits(n);
    DecimalValue(n);
    assert ("-" + Decimal(n))[1..] == Decimal(n);
    assert IsDigit(Decimal(n)[0]);
  }

  lemma {:induction false} ColonBeforeTail(name: string, tail: string)
    requires forall k :: 0 <= k < |tail| ==> tail[k] != ':'
    ensures LastColon(name + ":" + tail) == |name|
  {
    var s := name + ":" + tail;
    if tail == "" {
      assert s[|s| - 1] == ':';
    } else {
      var t := tail[..|tail| - 1];
      ColonBeforeTail(name, t);
      assert s[|s| - 1] == tail[|tail| - 1];
      assert s[..|s| - 1] == name + ":" + t;
    }
  }

  // ---- any message ----

  lemma {:induction false} SpacesSkipped(space: string, t: string)
    requires forall k :: 0 <= k < |space| ==> IsSpace(space[k])
    requires t != "" ==> !IsSpace(t[0])
    ensures SkipSpace(space + t) == t
  {
    if space == "" {
      assert space + t == t;
    } else {
      assert (space + t)[1..] == space[1..] + t;
      SpacesSkipped(space[1..], t);
    }
  }

  lemma {:induction false} DigitsStop(digits: string, rest: string, high: nat)
    requires forall k :: 0 <= k < |digits| ==> IsDigit(digits[k])
    requires rest != "" ==> !IsDigit(rest[0])
    ensures DigitsValue(digits + rest, high) == DigitsValue(digits, high)
  {
    if digits == "" {
      assert digits + rest == rest;
    } else {
      assert (digits + rest)[1..] == digits[1..] + rest;
      DigitsStop(digits[1..], rest, high * 10 + (digits[0] - '0') as nat);
    }
  }

  lemma UnsignedExactly(digits: string, rest: string)
    requires forall k :: 0 <= k < |digits| ==> IsDigit(digits[k])
    requires rest != "" ==> !IsDigit(rest[0])
    ensures Unsigned(digits + rest) == if digits == "" then None else Some(DigitsValue(digits, 0))
  {
    DigitsStop(digits, rest, 0);
    if digits == "" {
      assert digits + rest == rest;
    } else {
      assert (digits + rest)[0] == digits[0];
    }
  }

  lemma SignRead(sign: string, u: string)
    requires sign == "" || sign == "+" || sign == "-"
    requires sign == "" && u != "" ==> u[0] != '+' && u[0] != '-'
    ensures var t := sign + u;
            && (t != "" && t[0] == '-' <==> sign == "-")
            && (if t != "" && (t[0] == '-' || t[0] == '+') then t[1..] else t) == u
  {
    if sign == "" {
      assert sign + u == u;
    } else {
      assert (sign + u)[1..] == u;
    }
  }

  /** White space, a sign and digits are read as the number they stand for if it fits, whatever follows; without digits there, or
      beyond 32 bits, nothing is read. */
  lemma ParseExactly(space: string, sign: string, digits: string, rest: string)
    requires forall k :: 0 <= k < |space| ==> IsSpace(space[k])
    requires sign == "" || sign == "+" || sign == "-"
    requires forall k :: 0 <= k < |digits| ==> IsDigit(digits[k])
    requires rest != "" ==> !IsDigit(rest[0])
    requires sign == digits == "" && rest != "" ==> !IsSpace(rest[0]) && rest[0] != '+' && rest[0] != '-'
    ensures var n: int := DigitsValue(digits, 0);
            var v := if sign == "-" then -n else n;
            ParseInt(space + (sign + (digits + rest)))
            == if digits != "" && -2147483648 <= v <= 2147483647 then Some(v) else None
  {
    hide SkipSpace, DigitsValue, Unsigned;
    var u := digits + rest;
    assert u != "" ==> u[0] == if digits != "" then digits[0] else rest[0];
    UnsignedExactly(digits, rest);
    SignRead(sign, u);
    assert sign != "" ==> (sign + u)[0] == sign[0];
    assert sign == "" ==> sign + u == u;
    SpacesSkipped(space, sign + u);
  }

  /** Of a message the name is what stands before the last colon and the id the number behind it: it is kept exactly if there is a
      name and the number is 0 to 255. */
  lemma ReadExactly(name: string, tail: string)
    requires forall k :: 0 <= k < |tail| ==> tail[k] != ':'
    ensures var id := ParseInt(tail);
            Read(name + ":" + tail)
            == if name != "" && id.Some? && 0 <= id.value <= 255
               then Some((name, if id.value < 128 then id.value else id.value - 256)) else None
  {
    var data := name + ":" + tail;
    ColonBeforeTail(name, tail);
    assert data[|name| + 1..] == tail && data[..|name|] == name;
  }

  lemma {:induction false} NothingWithoutColon(data: string)
    requires forall k :: 0 <= k < |data| ==> data[k] != ':'
    ensures Read(data) == None && LastColon(data) == -1
  {
    if data != "" {
      NothingWithoutColon(data[..|data| - 1]);
    }
  }

  // ---- announcements ----

  /** What is read from an announcement, for every name and every id. */
  lemma ReadPrinted(name: string, id: int)
    ensures Read(Announcement(name, id)) == if name == "" || id < 0 || id > 255 then None else Some((name, SignedByte(id)))
  {
    var tail := ToString(id);
    var n: nat := if id < 0 then -id else id;
    DecimalDigits(n);
    forall k | 0 <= k < |tail| ensures tail[k] != ':' {
      assert k > 0 && id < 0 ==> tail[k] == Decimal(n)[k - 1];
    }
    ReadExactly(name, tail);
    ParsePrinted(id);
  }

  /** Name and id, colons in the name included, are recovered exactly for non-empty names and ids up to 127. */
  lemma RoundTrip(name: string, id: int)
    ensures Read(Announcement(name, id)) == Some((name, id)) <==> name != "" && 0 <= id <= 127
  {
    ReadPrinted(name, id);
  }

  /** After a readable announcement the mode can be selected exactly if the id is at most 127: an id of 128 to 255 is
      stored as a negative number and hides even an earlier valid id. */
  lemma SelectableAfterAnnounce(modes: map<string, int>, name: string, id: int)
    requires name != "" && 0 <= id <= 255
    ensures Selectable(OnAnnounce(modes, Announcement(name, id)), name) <==> id <= 127
    ensures forall other :: other != name ==>
              (other in OnAnnounce(modes, Announcement(name, id)) <==> other in modes)
              && (other in modes ==> OnAnnounce(modes, Announcement(name, id))[other] == modes[other])
  {
    ReadPrinted(name, id);
  }
}
