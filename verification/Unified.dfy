/** The unified message as JSON-like text: printing it and reading it back by substring search. */
module Unified {
  import opened CText

  datatype Message = Message(protocol: int, direction: int, timestamp: nat, payload: string)

  /** A long or a size converted to a 32-bit int. */
  function ToInt32(v: int): (r: int)
    ensures INT_MIN <= v <= INT_MAX ==> r == v
    ensures 0 <= v ==> r <= v
  {
    var w := v % 0x1_0000_0000;
    if w > INT_MAX then w - 0x1_0000_0000 else w
  }

  /**
   Messages as the C types can hold them. A null payload is the empty one. A size that becomes a
   negative precision makes snprintf read up to a NUL, which the payload then has to hold.
   */
  predicate Printable(m: Message) {
    && INT_MIN <= m.protocol <= INT_MAX && INT_MIN <= m.direction <= INT_MAX
    && m.timestamp <= ULONG_MAX && 256 + |m.payload| <= ULONG_MAX
    && (ToInt32(|m.payload|) >= 0 || '\0' in m.payload)
  }

  const DIRECTION_RESPONSE: int := 1

  const PROTOCOL: string := "protocol"
  const DIRECTION: string := "direction"
  const TIMESTAMP: string := "timestamp"

  /** A member name in quotes with its colon. */
  function Label(word: string): string { "\"" + word + "\":" }

  const PAYLOAD_LABEL: string := "\"payload\":\""

  // ---------------------------------------------------------------- printing

  /** What "%.*s" shows of a payload: at most its size as an int, and nothing from the first NUL on. */
  function Shown(payload: string): (r: string)
    ensures r <= payload && '\0' !in r
    ensures |payload| <= INT_MAX ==> r == CString(payload)
  {
    var precision := ToInt32(|payload|);
    if precision < 0 then CString(payload) else CString(payload[..precision])
  }

  function Member(lead: string, word: string, number: string): string {
    lead + Label(word) + number + ","
  }

  /** The text that the format string produces. */
  function Print(m: Message): string {
    Member("{", PROTOCOL, SignedDecimal(m.protocol))
    + (Member("", DIRECTION, SignedDecimal(m.direction))
       + (Member("", TIMESTAMP, Decimal(m.timestamp))
          + (PAYLOAD_LABEL + Shown(m.payload) + "\"}")))
  }

  lemma SignedLength(n: int)
    requires INT_MIN <= n <= INT_MAX
    ensures |SignedDecimal(n)| <= 11
  {
    assert Pow10(10) == 10_000_000_000;
    DecimalLength(if n < 0 then -n else n, 10);
  }

  lemma TimestampLength(n: nat)
    requires n <= ULONG_MAX
    ensures |Decimal(n)| <= 20
  {
    Pow10Sum(10, 10);
    assert Pow10(10) == 10_000_000_000;
    DecimalLength(n, 20);
  }

  /** What snprintf returns: the length of the text, or -1 when an int cannot hold it. */
  function SnprintfResult(text: string): int {
    if |text| > INT_MAX then -1 else |text|
  }

  lemma Labels()
    ensures "{" + Label(PROTOCOL) == "{\"protocol\":"
    ensures "" + Label(DIRECTION) == "\"direction\":"
    ensures "" + Label(TIMESTAMP) == "\"timestamp\":"
  {
  }

  lemma MemberText(lead: string, word: string, number: string)
    ensures Member(lead, word, number) == (lead + Label(word)) + number + ","
  {
    hide Label;
  }

  lemma Regroup(x: string, k: string, d: string, b: string, t: string, c: string, l: string, z: string)
    ensures (x + k) + ((d + b + k) + ((t + c + k) + (l + z))) == x + (k + d) + b + (k + t) + c + (k + l) + z
  {
  }

  lemma Commas()
    ensures "," + "\"direction\":" == ",\"direction\":" && "," + "\"timestamp\":" == ",\"timestamp\":"
    ensures "," + PAYLOAD_LABEL == ",\"payload\":\""
  {
  }

  lemma Together(a: string, b: string, c: string, p: string)
    ensures ("{\"protocol\":" + a + ",") + (("\"direction\":" + b + ",") + (("\"timestamp\":" + c + ",")
              + (PAYLOAD_LABEL + p + "\"}")))
            == "{\"protocol\":" + a + ",\"direction\":" + b + ",\"timestamp\":" + c + ",\"payload\":\"" + p + "\"}"
  {
    Commas();
    Regroup("{\"protocol\":" + a, ",", "\"direction\":", b, "\"timestamp\":", c, PAYLOAD_LABEL, p + "\"}");
  }

  /** The text in full. */
  lemma PrintText(m: Message)
    ensures Print(m) == "{\"protocol\":" + SignedDecimal(m.protocol) + ",\"direction\":" + SignedDecimal(m.direction)
                        + ",\"timestamp\":" + Decimal(m.timestamp) + ",\"payload\":\"" + Shown(m.payload) + "\"}"
  {
    hide SignedDecimal, Decimal, Shown, Member;
    Labels();
    MemberText("{", PROTOCOL, SignedDecimal(m.protocol));
    MemberText("", DIRECTION, SignedDecimal(m.direction));
    MemberText("", TIMESTAMP, Decimal(m.timestamp));
    Together(SignedDecimal(m.protocol), SignedDecimal(m.direction), Decimal(m.timestamp), Shown(m.payload));
  }

  /** The printed text counted from its parts: 52 fixed bytes, the numbers and the payload shown. */
  predicate FitsInt(m: Message) {
    52 + |SignedDecimal(m.protocol)| + |SignedDecimal(m.direction)| + |Decimal(m.timestamp)| + |Shown(m.payload)|
    <= INT_MAX
  }

  lemma PrintLength(m: Message)
    requires Printable(m)
    ensures |Print(m)| <= INT_MAX <==> FitsInt(m)
    ensures |Print(m)| <= 94 + |Shown(m.payload)|
  {
    hide Decimal, SignedDecimal, Shown;
    SignedLength(m.protocol);
    SignedLength(m.direction);
    TimestampLength(m.timestamp);
  }

  /**
   Prints into a buffer of 256 bytes more than the payload, which never truncates. It fails exactly
   for the messages whose text is longer than an int can count.
   */
  method ToJson(m: Message) returns (r: Option<string>)
    requires Printable(m)
    ensures r == if FitsInt(m) then Some(Print(m)) else None
  {
    hide Decimal, SignedDecimal, Shown, Print, FitsInt;
    var bufSize := 256 + |m.payload|;
    var text := Print(m);
    var written := SnprintfResult(text);
    PrintLength(m);
    if written < 0 || written >= bufSize {
      return None;
    }
    return Some(text);
  }

  /** Payloads that leave 94 bytes of an int's range always print. */
  lemma ShorterPayloadsFit(m: Message)
    requires Printable(m) && |m.payload| <= INT_MAX - 94
    ensures FitsInt(m)
  {
    hide Decimal, SignedDecimal, Shown;
    SignedLength(m.protocol);
    SignedLength(m.direction);
    TimestampLength(m.timestamp);
  }

  /** The longest payload the precision can express does not print unless a NUL cuts it. */
  lemma LongestPayloadFails(m: Message)
    requires Printable(m) && |m.payload| == INT_MAX && '\0' !in m.payload
    ensures !FitsInt(m) && |Print(m)| > INT_MAX
  {
    hide Decimal, SignedDecimal;
    PrintLength(m);
  }

  /** A message that the code refuses although every field is in range. */
  lemma PrintingCanFail()
    ensures var m := Message(0, 0, 0, seq(INT_MAX, _ => 'x'));
            Printable(m) && !FitsInt(m)
  {
    hide Decimal, SignedDecimal;
    LongestPayloadFails(Message(0, 0, 0, seq(INT_MAX, _ => 'x')));
  }

  // ---------------------------------------------------------------- reading

  /** The text before the first `c`. */
  function Before(s: string, c: char): (r: string)
    ensures r <= s && c !in r
    ensures |r| < |s| ==> s[|r|] == c
  {
    if s == "" || s[0] == c then "" else [s[0]] + Before(s[1..], c)
  }

  /** What follows the first occurrence of a label, if it occurs. */
  function After(pat: string, text: string): Option<string> {
    match Find(pat, text)
    case None => None
    case Some(i) => Some(text[i + |pat|..])
  }

  /** The message that a text decodes to, given the defaults for absent members. */
  function Decoded(data: string, defaultProtocol: int, now: nat): Message {
    var text := CString(data);
    var protocol := match After(Label(PROTOCOL), text)
                    case None => defaultProtocol
                    case Some(s) => ToInt32(StrToL(s));
    var direction := match After(Label(DIRECTION), text)
                     case None => DIRECTION_RESPONSE
                     case Some(s) => ToInt32(StrToL(s));
    var timestamp := match After(Label(TIMESTAMP), text)
                     case None => now
                     case Some(s) => StrToUL(s);
    var payload := match After(PAYLOAD_LABEL, text)
                   case None => ""
                   case Some(s) => Before(s, '"');
    Message(protocol, direction, timestamp, payload)
  }

  /** The receiver of a decoded message. */
  class MessageBox {
    var protocol: int
    var direction: int
    var timestamp: nat
    var payload: string

    /** Fills the fields one after the other; empty data is refused and changes nothing. */
    method Decode(data: string, defaultProtocol: int, now: nat) returns (ok: bool)
      modifies this
      ensures ok <==> data != ""
      ensures ok ==> Message(protocol, direction, timestamp, payload) == Decoded(data, defaultProtocol, now)
      ensures !ok ==> protocol == old(protocol) && direction == old(direction)
                      && timestamp == old(timestamp) && payload == old(payload)
    {
      hide Find, StrToL, StrToUL, CString, Before, Label;
      if data == "" {
        return false;
      }
      var copy := CString(data);
      protocol := defaultProtocol;
      var p := Find(Label(PROTOCOL), copy);
      if p.Some? {
        protocol := ToInt32(StrToL(copy[p.value + |Label(PROTOCOL)|..]));
      }
      direction := DIRECTION_RESPONSE;
      p := Find(Label(DIRECTION), copy);
      if p.Some? {
        direction := ToInt32(StrToL(copy[p.value + |Label(DIRECTION)|..]));
      }
      timestamp := now;
      p := Find(Label(TIMESTAMP), copy);
      if p.Some? {
        timestamp := StrToUL(copy[p.value + |Label(TIMESTAMP)|..]);
      }
      p := Find(PAYLOAD_LABEL, copy);
      if p.Some? {
        payload := Before(copy[p.value + |PAYLOAD_LABEL|..], '"');
      } else {
        payload := "";
      }
      return true;
    }
  }

  // ---------------------------------------------------------------- round trip

  lemma {:induction false} FindSkips(pat: string, s: string, i: nat, k: nat)
    requires i <= k <= |s| && forall j :: i <= j < k ==> !OccursAt(pat, s, j)
    ensures FindFrom(pat, s, i) == FindFrom(pat, s, k)
    decreases k - i
  {
    if i < k {
      FindSkips(pat, s, i + 1, k);
    }
  }

  lemma {:induction false} FindShifts(pat: string, x: string, y: string, k: nat)
    requires k <= |y|
    ensures FindFrom(pat, x + y, |x| + k) ==
            match FindFrom(pat, y, k) case None => None case Some(v) => Some(|x| + v)
    decreases |y| - k
  {
    if k + |pat| <= |y| {
      assert (x + y)[|x| + k..|x| + k + |pat|] == y[k..k + |pat|];
    }
    if k < |y| && !OccursAt(pat, y, k) {
      FindShifts(pat, x, y, k + 1);
    }
  }

  /** Searching skips a prefix in which the pattern starts nowhere. */
  lemma AfterSkips(pat: string, x: string, y: string)
    requires forall j :: 0 <= j < |x| ==> !OccursAt(pat, x + y, j)
    ensures After(pat, x + y) == After(pat, y)
  {
    hide FindFrom;
    FindSkips(pat, x + y, 0, |x|);
    FindShifts(pat, x, y, 0);
    if Find(pat, y).Some? {
      var k := Find(pat, y).value + |pat|;
      assert (x + y)[|x| + k..] == y[k..];
    }
  }

  lemma AfterFront(pat: string, y: string)
    ensures After(pat, pat + y) == Some(y)
  {
    var s := pat + y;
    assert s[0..|pat|] == pat;
    FoundAt(pat, s, 0, 0);
    assert s[|pat|..] == y;
  }

  // ---------------------------------------------------------------- any text

  ghost predicate Absent(pat: string, text: string) {
    forall j :: 0 <= j ==> !OccursAt(pat, text, j)
  }

  /** `pat` first stands after `pre`. */
  ghost predicate FirstAt(pat: string, text: string, pre: string, rest: string) {
    text == pre + pat + rest && forall j :: 0 <= j < |pre| ==> !OccursAt(pat, text, j)
  }

  lemma AfterFirst(pat: string, text: string, pre: string, rest: string)
    requires FirstAt(pat, text, pre, rest)
    ensures After(pat, text) == Some(rest)
  {
    assert text[|pre|..|pre| + |pat|] == pat;
    FoundAt(pat, text, 0, |pre|);
    assert text[|pre| + |pat|..] == rest;
  }

  lemma AfterAbsent(pat: string, text: string)
    requires Absent(pat, text)
    ensures After(pat, text) == None
  {
    NotFound(pat, text, 0);
  }

  /** A number ends where its digits end. */
  predicate EndsNumber(rest: string) { rest == "" || !IsDigit(rest[0]) }

  lemma LongReadsBack(n: int, rest: string)
    requires INT_MIN <= n <= INT_MAX && EndsNumber(rest)
    ensures ToInt32(StrToL(SignedDecimal(n) + rest)) == n
  {
    hide Numeral, ToInt32;
    if n < 0 {
      NumeralOfNegative(-n, rest);
    } else {
      NumeralOfDecimal(n, rest);
    }
  }

  /**
   Decoding any text without a NUL: each member is read at the first place its label stands, in
   whatever order and whatever is around it, and has its default when the label stands nowhere.
   */
  lemma DecodesProtocol(text: string, pre: string, n: int, rest: string, default: int, now: nat)
    requires '\0' !in text && INT_MIN <= n <= INT_MAX && EndsNumber(rest)
    ensures FirstAt("\"protocol\":", text, pre, SignedDecimal(n) + rest) ==> Decoded(text, default, now).protocol == n
    ensures Absent("\"protocol\":", text) ==> Decoded(text, default, now).protocol == default
  {
    hide After, StrToL, StrToUL, ToInt32, SignedDecimal, Before, FirstAt, Absent;
    assert Label(PROTOCOL) == "\"protocol\":";
    LongReadsBack(n, rest);
    if FirstAt(Label(PROTOCOL), text, pre, SignedDecimal(n) + rest) {
      AfterFirst(Label(PROTOCOL), text, pre, SignedDecimal(n) + rest);
    }
    if Absent(Label(PROTOCOL), text) {
      AfterAbsent(Label(PROTOCOL), text);
    }
  }

  lemma DecodesDirection(text: string, pre: string, n: int, rest: string, default: int, now: nat)
    requires '\0' !in text && INT_MIN <= n <= INT_MAX && EndsNumber(rest)
    ensures FirstAt("\"direction\":", text, pre, SignedDecimal(n) + rest) ==> Decoded(text, default, now).direction == n
    ensures Absent("\"direction\":", text) ==> Decoded(text, default, now).direction == 1
  {
    hide After, StrToL, StrToUL, ToInt32, SignedDecimal, Before, FirstAt, Absent;
    assert Label(DIRECTION) == "\"direction\":";
    LongReadsBack(n, rest);
    if FirstAt(Label(DIRECTION), text, pre, SignedDecimal(n) + rest) {
      AfterFirst(Label(DIRECTION), text, pre, SignedDecimal(n) + rest);
    }
    if Absent(Label(DIRECTION), text) {
      AfterAbsent(Label(DIRECTION), text);
    }
  }

  lemma DecodesTimestamp(text: string, pre: string, n: nat, rest: string, default: int, now: nat)
    requires '\0' !in text && n <= ULONG_MAX && EndsNumber(rest)
    ensures FirstAt("\"timestamp\":", text, pre, Decimal(n) + rest) ==> Decoded(text, default, now).timestamp == n
    ensures Absent("\"timestamp\":", text) ==> Decoded(text, default, now).timestamp == now
  {
    hide After, StrToL, Numeral, ToInt32, Decimal, Before, FirstAt, Absent;
    assert Label(TIMESTAMP) == "\"timestamp\":";
    NumeralOfDecimal(n, rest);
    if FirstAt(Label(TIMESTAMP), text, pre, Decimal(n) + rest) {
      AfterFirst(Label(TIMESTAMP), text, pre, Decimal(n) + rest);
    }
    if Absent(Label(TIMESTAMP), text) {
      AfterAbsent(Label(TIMESTAMP), text);
    }
  }

  lemma {:induction false} BeforeClosing(p: string, rest: string)
    ensures Before(p + "\"" + rest, '"') == Before(p, '"')
  {
    var s := p + "\"" + rest;
    if p == "" {
      assert s[0] == '"';
    } else {
      assert s[1..] == p[1..] + "\"" + rest;
      BeforeClosing(p[1..], rest);
    }
  }

  lemma {:induction false} NothingToCut(s: string)
    requires '"' !in s
    ensures Before(s, '"') == s
  {
    if s != "" {
      NothingToCut(s[1..]);
    }
  }

  lemma DecodesPayload(text: string, pre: string, payload: string, rest: string, default: int, now: nat)
    requires '\0' !in text && '"' !in payload
    ensures FirstAt("\"payload\":\"", text, pre, payload + "\"" + rest) ==>
              Decoded(text, default, now).payload == payload
    ensures Absent("\"payload\":\"", text) ==> Decoded(text, default, now).payload == ""
  {
    hide After, StrToL, StrToUL, ToInt32, Before, FirstAt, Absent;
    BeforeClosing(payload, rest);
    NothingToCut(payload);
    if FirstAt(PAYLOAD_LABEL, text, pre, payload + "\"" + rest) {
      AfterFirst(PAYLOAD_LABEL, text, pre, payload + "\"" + rest);
    }
    if Absent(PAYLOAD_LABEL, text) {
      AfterAbsent(PAYLOAD_LABEL, text);
    }
  }

  // ---------------------------------------------------------------- printed text

  predicate NoQuote(s: string) { '"' !in s }

  lemma QuotesOfMember(lead: string, word: string, number: string, j: nat)
    requires NoQuote(lead) && NoQuote(word) && NoQuote(number)
    requires j < |Member(lead, word, number)| && j != |lead| && j != |lead| + 1 + |word|
    ensures Member(lead, word, number)[j] != '"'
  {
    var x := Member(lead, word, number);
    assert x == lead + "\"" + word + "\"" + ":" + number + ",";
    if j < |lead| {
      assert x[j] == lead[j];
    } else if j < |lead| + 1 + |word| {
      assert x[j] == word[j - |lead| - 1];
    } else if j > |lead| + |word| + 2 && j < |x| - 1 {
      assert x[j] == number[j - |lead| - |word| - 3];
    }
  }

  /** A label does not start inside a member with another name. */
  lemma SkipMember(pat: string, lead: string, word: string, number: string, y: string)
    requires |pat| >= 3 && |word| >= 2 && pat[0] == '"' && pat[1] != ':' && pat[1..3] != word[..2]
    requires NoQuote(lead) && NoQuote(word) && NoQuote(number)
    ensures After(pat, Member(lead, word, number) + y) == After(pat, y)
  {
    hide After;
    var x := Member(lead, word, number);
    var s := x + y;
    var open, close := |lead|, |lead| + 1 + |word|;
    assert x == lead + "\"" + word + "\"" + ":" + number + ",";
    assert s[open] == '"' && s[close] == '"' && s[close + 1] == ':';
    assert s[open + 1] == word[0] && s[open + 2] == word[1];
    forall j | 0 <= j < |x|
      ensures !OccursAt(pat, s, j)
    {
      if j == open || j == close {
        if j + |pat| <= |s| {
          var w := s[j..j + |pat|];
          assert w[0] == s[j] && w[1] == s[j + 1] && w[2] == s[j + 2];
          assert pat[1..3] == [pat[1], pat[2]] && word[..2] == [word[0], word[1]];
        }
      } else {
        QuotesOfMember(lead, word, number, j);
        if j + |pat| <= |s| {
          assert s[j..j + |pat|][0] == s[j] != '"';
        }
      }
    }
    AfterSkips(pat, x, y);
  }

  /** A label at the front of a member gives the rest of the text, starting with the number. */
  lemma TakeMember(lead: string, word: string, number: string, y: string)
    requires NoQuote(lead)
    ensures After(Label(word), Member(lead, word, number) + y) == Some(number + "," + y)
  {
    hide After;
    var rest := number + "," + y;
    assert Member(lead, word, number) + y == lead + (Label(word) + rest);
    NoOccurrence(Label(word), lead + (Label(word) + rest), 0, |lead|);
    AfterSkips(Label(word), lead, Label(word) + rest);
    AfterFront(Label(word), rest);
  }

  lemma NumbersHaveNoQuote(n: int)
    ensures NoQuote(SignedDecimal(n)) && '\0' !in SignedDecimal(n)
    ensures n >= 0 ==> SignedDecimal(n) == Decimal(n)
  {
  }

  lemma SignedReadsBack(n: int, rest: string)
    requires INT_MIN <= n <= INT_MAX
    ensures StrToL(SignedDecimal(n) + "," + rest) == n
  {
    hide Numeral;
    if n < 0 {
      NumeralOfNegative(-n, "," + rest);
      assert SignedDecimal(n) + "," + rest == "-" + Decimal(-n) + ("," + rest);
    } else {
      NumeralOfDecimal(n, "," + rest);
      assert SignedDecimal(n) + "," + rest == Decimal(n) + ("," + rest);
    }
  }

  lemma UnsignedReadsBack(n: nat, rest: string)
    requires n <= ULONG_MAX
    ensures StrToUL(Decimal(n) + "," + rest) == n
  {
    hide Numeral;
    NumeralOfDecimal(n, "," + rest);
    assert Decimal(n) + "," + rest == Decimal(n) + ("," + rest);
  }

  lemma MemberHasNoNul(lead: string, word: string, number: string)
    requires '\0' !in lead && '\0' !in word && '\0' !in number
    ensures '\0' !in Member(lead, word, number)
  {
  }

  lemma PrintHasNoNul(m: Message)
    ensures '\0' !in Print(m)
  {
    hide Shown, Decimal, SignedDecimal, Member;
    NumbersHaveNoQuote(m.protocol);
    NumbersHaveNoQuote(m.direction);
    NumbersHaveNoQuote(m.timestamp);
    MemberHasNoNul("{", PROTOCOL, SignedDecimal(m.protocol));
    MemberHasNoNul("", DIRECTION, SignedDecimal(m.direction));
    MemberHasNoNul("", TIMESTAMP, Decimal(m.timestamp));
  }

  function Tail3(m: Message): string { PAYLOAD_LABEL + Shown(m.payload) + "\"}" }
  function Tail2(m: Message): string { Member("", TIMESTAMP, Decimal(m.timestamp)) + Tail3(m) }
  function Tail1(m: Message): string { Member("", DIRECTION, SignedDecimal(m.direction)) + Tail2(m) }

  lemma ProtocolPart(m: Message)
    requires Printable(m)
    ensures After(Label(PROTOCOL), Print(m)).Some?
    ensures ToInt32(StrToL(After(Label(PROTOCOL), Print(m)).value)) == m.protocol
  {
    hide Decimal, SignedDecimal, After, Shown, Member, StrToL;
    TakeMember("{", PROTOCOL, SignedDecimal(m.protocol), Tail1(m));
    SignedReadsBack(m.protocol, Tail1(m));
  }

  lemma LabelStart(word: string)
    requires |word| >= 2
    ensures var l := Label(word);
            |l| >= 3 && l[0] == '"' && l[1] == word[0] && l[1..3] == word[..2]
  {
  }

  lemma DirectionPart(m: Message)
    requires Printable(m)
    ensures After(Label(DIRECTION), Print(m)).Some?
    ensures ToInt32(StrToL(After(Label(DIRECTION), Print(m)).value)) == m.direction
  {
    hide Decimal, SignedDecimal, After, Shown, Member, StrToL;
    NumbersHaveNoQuote(m.protocol);
    LabelStart(DIRECTION);
    SkipMember(Label(DIRECTION), "{", PROTOCOL, SignedDecimal(m.protocol), Tail1(m));
    TakeMember("", DIRECTION, SignedDecimal(m.direction), Tail2(m));
    SignedReadsBack(m.direction, Tail2(m));
  }

  lemma TimestampPart(m: Message)
    requires Printable(m)
    ensures After(Label(TIMESTAMP), Print(m)).Some?
    ensures StrToUL(After(Label(TIMESTAMP), Print(m)).value) == m.timestamp
  {
    hide Decimal, SignedDecimal, After, Shown, Member, StrToUL;
    NumbersHaveNoQuote(m.protocol);
    NumbersHaveNoQuote(m.direction);
    LabelStart(TIMESTAMP);
    SkipMember(Label(TIMESTAMP), "{", PROTOCOL, SignedDecimal(m.protocol), Tail1(m));
    SkipMember(Label(TIMESTAMP), "", DIRECTION, SignedDecimal(m.direction), Tail2(m));
    TakeMember("", TIMESTAMP, Decimal(m.timestamp), Tail3(m));
    UnsignedReadsBack(m.timestamp, Tail3(m));
  }

  lemma PayloadPart(m: Message)
    requires Printable(m)
    ensures After(PAYLOAD_LABEL, Print(m)).Some?
    ensures Before(After(PAYLOAD_LABEL, Print(m)).value, '"') == Before(Shown(m.payload), '"')
  {
    hide Decimal, SignedDecimal, After, Shown, Member, Before;
    NumbersHaveNoQuote(m.protocol);
    NumbersHaveNoQuote(m.direction);
    NumbersHaveNoQuote(m.timestamp);
    assert PAYLOAD_LABEL[1..3][1] == 'a' && PROTOCOL[..2][1] == 'r';
    SkipMember(PAYLOAD_LABEL, "{", PROTOCOL, SignedDecimal(m.protocol), Tail1(m));
    SkipMember(PAYLOAD_LABEL, "", DIRECTION, SignedDecimal(m.direction), Tail2(m));
    SkipMember(PAYLOAD_LABEL, "", TIMESTAMP, Decimal(m.timestamp), Tail3(m));
    var p := Shown(m.payload);
    assert Tail3(m) == PAYLOAD_LABEL + (p + "\"" + "}");
    AfterFront(PAYLOAD_LABEL, p + "\"" + "}");
    BeforeClosing(p, "}");
  }

  /** Printing and decoding give the message back, its payload cut only at the first quote or NUL. */
  lemma DecodeOfPrint(m: Message, defaultProtocol: int, now: nat)
    requires Printable(m)
    ensures Decoded(Print(m), defaultProtocol, now) == m.(payload := Before(Shown(m.payload), '"'))
  {
    hide Shown, CString, Decimal, SignedDecimal, After, Before, Member, StrToL, StrToUL, Label, ToInt32;
    PrintHasNoNul(m);
    var text := Print(m);
    assert CString(text) == text;
    ProtocolPart(m);
    DirectionPart(m);
    TimestampPart(m);
    PayloadPart(m);
  }

  /** A size beyond an int's range becomes a smaller number. */
  lemma PrecisionCuts(size: nat)
    requires size > INT_MAX
    ensures ToInt32(size) < size
  {
  }

  /**
   A message comes back exactly when its payload holds neither a quote nor a NUL and an int can
   count it.
   */
  lemma RoundTripExactlyWhen(m: Message, defaultProtocol: int, now: nat)
    requires Printable(m)
    ensures Decoded(Print(m), defaultProtocol, now) == m <==>
              '"' !in m.payload && '\0' !in m.payload && |m.payload| <= INT_MAX
  {
    hide Print, Decoded, ToInt32;
    DecodeOfPrint(m, defaultProtocol, now);
    if '"' !in m.payload && '\0' !in m.payload && |m.payload| <= INT_MAX {
      NothingToCut(m.payload);
    } else if |m.payload| > INT_MAX && '\0' !in m.payload {
      PrecisionCuts(|m.payload|);
    }
  }

  lemma PrintNotEmpty(m: Message)
    ensures Print(m) != ""
  {
    hide Shown, Decimal, SignedDecimal;
  }

  /** Printing and then decoding into a box, as the sender and the receiver do. */
  method SendAndReceive(m: Message, box: MessageBox, defaultProtocol: int, now: nat) returns (ok: bool)
    requires Printable(m)
    modifies box
    ensures ok <==> FitsInt(m)
    ensures ok ==> Message(box.protocol, box.direction, box.timestamp, box.payload)
                   == m.(payload := Before(Shown(m.payload), '"'))
  {
    hide Print, Decoded, FitsInt, Shown, Before;
    var text := ToJson(m);
    if text.None? {
      return false;
    }
    DecodeOfPrint(m, defaultProtocol, now);
    assert text.value != "" by { PrintNotEmpty(m); }
    ok := box.Decode(text.value, defaultProtocol, now);
  }
}
