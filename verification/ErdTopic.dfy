/** The MQTT topic grammar: printing, parsing, and the proof that they undo each other.
      geappliances/{device}/erd/0x{ERD}/{op}            primary board
      geappliances/{device}/erd/0x{ADDR}_0x{ERD}/{op}   any other board */
module ErdTopic {
  import opened Common

  /** The GEA broadcast address, which stands for the primary board in the grammar. */
  const PRIMARY: Byte := 0xFF

  const BUFFER_SIZE: nat := 128

  datatype Op = Value | Write | WriteResult

  datatype Topic = Topic(board: Byte, erd: Erd, op: Op)

  function OpName(op: Op): (s: string)
    ensures '\0' !in s
  {
    match op
    case Value => "value"
    case Write => "write"
    case WriteResult => "write_result"
  }

  // ---------------------------------------------------------------- hexadecimal fields

  function Digit(d: nat): char
    requires d < 16
  {
    "0123456789abcdef"[d]
  }

  /** printf("%0*x"): exactly `width` lowercase digits for a value that fits them. */
  function Hex(n: nat, width: nat): (s: string)
    ensures |s| == width
    decreases width
  {
    if width == 0 then "" else Hex(n / 16, width - 1) + [Digit(n % 16)]
  }

  function DigitValue(c: char): int {
    if '0' <= c <= '9' then c as int - '0' as int
    else if 'a' <= c <= 'f' then c as int - 'a' as int + 10
    else if 'A' <= c <= 'F' then c as int - 'A' as int + 10
    else -1
  }

  /** The value spelled by a string of hex digits of either case. */
  function HexValue(s: string): Option<nat> {
    if s == "" then Some(0)
    else
      var high, low := HexValue(s[..|s| - 1]), DigitValue(s[|s| - 1]);
      if high.Some? && low >= 0 then Some(16 * high.value + low) else None
  }

  function Pow16(width: nat): nat {
    if width == 0 then 1 else 16 * Pow16(width - 1)
  }

  function Lower(c: char): char {
    if 'A' <= c <= 'F' then (c as int + 32) as char else c
  }

  function Lowered(s: string): (r: string)
    ensures |r| == |s|
  {
    if s == "" then "" else Lowered(s[..|s| - 1]) + [Lower(s[|s| - 1])]
  }

  lemma {:induction false} HexReads(n: nat, width: nat)
    requires n < Pow16(width)
    ensures HexValue(Hex(n, width)) == Some(n)
    decreases width
  {
    hide *;
    if width == 0 {
      NoDigits();
    } else {
      PowStep(width);
      var high, low := Sixteenth(n, Pow16(width - 1));
      HexReads(high, width - 1);
      HexStep(high, low, width);
      DigitReads(low);
      HexValueAppend(Hex(high, width - 1), Digit(low));
    }
  }

  lemma NoDigits()
    ensures Pow16(0) == 1 && Hex(0, 0) == "" && HexValue("") == Some(0) && Lowered("") == ""
  {
  }

  lemma PowStep(width: nat)
    requires width > 0
    ensures Pow16(width) == 16 * Pow16(width - 1)
  {
  }

  lemma HexStep(high: nat, low: nat, width: nat)
    requires width > 0 && low < 16
    ensures Hex(16 * high + low, width) == Hex(high, width - 1) + [Digit(low)]
  {
    assert (16 * high + low) / 16 == high && (16 * high + low) % 16 == low;
  }

  lemma Sixteenth(n: nat, m: nat) returns (high: nat, low: nat)
    requires n < 16 * m
    ensures high < m && low < 16 && n == 16 * high + low
  {
    high, low := n / 16, n % 16;
  }

  lemma DigitReads(d: nat)
    requires d < 16
    ensures DigitValue(Digit(d)) == d
  {
  }

  lemma HexValueAppend(s: string, c: char)
    ensures var high, low := HexValue(s), DigitValue(c);
            HexValue(s + [c]) == if high.Some? && low >= 0 then Some(16 * high.value + low) else None
  {
    hide DigitValue;
    assert (s + [c])[..|s|] == s;
  }

  /** Reading a field and printing it again yields the field in lowercase. */
  lemma {:induction false} HexReprints(s: string)
    requires HexValue(s).Some?
    ensures HexValue(s).value < Pow16(|s|)
    ensures Hex(HexValue(s).value, |s|) == Lowered(s)
  {
    hide *;
    if s == "" {
      NoDigits();
    } else {
      var front, last := s[..|s| - 1], s[|s| - 1];
      assert s == front + [last];
      HexValueAppend(front, last);
      HexReprints(front);
      DigitReprints(last);
      HexOnwards(front, last);
    }
  }

  /** One more digit read, printed again. */
  lemma HexOnwards(front: string, last: char)
    requires HexValue(front).Some? && 0 <= DigitValue(last) < 16 && Digit(DigitValue(last)) == Lower(last)
    requires HexValue(front).value < Pow16(|front|) && Hex(HexValue(front).value, |front|) == Lowered(front)
    ensures 16 * HexValue(front).value + DigitValue(last) < Pow16(|front| + 1)
    ensures Hex(16 * HexValue(front).value + DigitValue(last), |front| + 1) == Lowered(front + [last])
  {
    hide *;
    var high, low := HexValue(front).value, DigitValue(last);
    PowStep(|front| + 1);
    InRange(high, low, Pow16(|front|));
    HexStep(high, low, |front| + 1);
    LoweredAppend(front, last);
  }

  lemma InRange(high: nat, low: nat, m: nat)
    requires high < m && low < 16
    ensures 16 * high + low < 16 * m
  {
  }

  lemma LoweredAppend(s: string, c: char)
    ensures Lowered(s + [c]) == Lowered(s) + [Lower(c)]
  {
    assert (s + [c])[..|s|] == s;
  }

  lemma DigitReprints(c: char)
    requires DigitValue(c) >= 0
    ensures DigitValue(c) < 16 && Digit(DigitValue(c)) == Lower(c) && c != '\0' && c != '_'
  {
    assert "0123456789abcdef"[10] == 'a' && "0123456789abcdef"[15] == 'f';
  }

  /** Equal but for the case of hex letters. */
  ghost predicate SameUpToCase(s: string, u: string) {
    |s| == |u| &&
    forall i | 0 <= i < |s| :: s[i] == u[i] || ('A' <= s[i] <= 'F' && u[i] as int == s[i] as int + 32)
  }

  /** The case of hex letters makes no difference to the value read. */
  lemma {:induction false} CaseIsIgnored(s: string, u: string)
    requires SameUpToCase(s, u)
    ensures HexValue(s) == HexValue(u)
  {
    if s != "" { CaseIsIgnored(s[..|s| - 1], u[..|u| - 1]); }
  }

  lemma {:induction false} HexFieldIsDigits(s: string, i: nat)
    requires HexValue(s).Some? && i < |s|
    ensures DigitValue(s[i]) >= 0
  {
    if i < |s| - 1 { HexFieldIsDigits(s[..|s| - 1], i); }
  }

  // ---------------------------------------------------------------- the grammar

  function Stem(deviceId: string): string {
    "geappliances/" + deviceId + "/erd/0x"
  }

  function Fields(t: Topic): string {
    if t.board == PRIMARY then Hex(t.erd, 4) else Hex(t.board, 2) + "_0x" + Hex(t.erd, 4)
  }

  function Printed(deviceId: string, t: Topic): string {
    Stem(deviceId) + Fields(t) + "/" + OpName(t.op)
  }

  ghost predicate PrimaryShape(rest: string) {
    |rest| > 4 && HexValue(rest[..4]).Some? && rest[4] == '/'
  }

  ghost predicate SecondaryShape(rest: string) {
    && |rest| > 9 && HexValue(rest[..2]).Some? && rest[2] == '_' && rest[3] == '0' && rest[4] == 'x'
    && HexValue(rest[5..9]).Some? && rest[9] == '/'
  }

  /** `rest`, what follows the stem, denotes `t`; hex digits of either case are allowed. */
  ghost predicate Denotes(rest: string, t: Topic) {
    if t.board == PRIMARY then
      PrimaryShape(rest) && HexValue(rest[..4]).value == t.erd && rest[5..] == OpName(t.op)
    else
      && SecondaryShape(rest) && HexValue(rest[..2]).value == t.board
      && HexValue(rest[5..9]).value == t.erd && rest[10..] == OpName(t.op)
  }

  /** `text` is a topic of device `deviceId` that means `t`. */
  ghost predicate Spells(text: string, deviceId: string, t: Topic) {
    Stem(deviceId) <= text && Denotes(text[|Stem(deviceId)|..], t)
  }

  lemma OpNamesDiffer(o: Op, p: Op)
    ensures OpName(o) == OpName(p) ==> o == p
  {
    assert |OpName(Value)| == 5 && |OpName(Write)| == 5 && |OpName(WriteResult)| == 12;
    assert OpName(Value)[0] == 'v' && OpName(Write)[0] == 'w';
  }

  lemma FieldRanges()
    ensures Pow16(2) == 0x100 && Pow16(4) == 0x1_0000
  {
    assert Pow16(0) == 1 && Pow16(1) == 16;
    assert Pow16(3) == 4096;
  }

  lemma HexFieldsRead(t: Topic)
    ensures HexValue(Hex(t.erd, 4)) == Some(t.erd)
    ensures HexValue(Hex(t.board, 2)) == Some(t.board)
  {
    FieldRanges();
    HexReads(t.erd, 4);
    HexReads(t.board, 2);
  }

  /** Whatever is printed reads back as itself. */
  lemma PrintedSpells(deviceId: string, t: Topic)
    ensures Spells(Printed(deviceId, t), deviceId, t)
  {
    HexFieldsRead(t);
    hide Stem, Hex, HexValue, OpName, Denotes;
    var rest := Fields(t) + "/" + OpName(t.op);
    assert Printed(deviceId, t) == Stem(deviceId) + rest;
    assert Printed(deviceId, t)[|Stem(deviceId)|..] == rest;
    FieldsDenote(t, Hex(t.board, 2), Hex(t.erd, 4), OpName(t.op));
  }

  lemma FieldsDenote(t: Topic, board: string, erd: string, op: string)
    requires |board| == 2 && |erd| == 4 && op == OpName(t.op)
    requires HexValue(board) == Some(t.board) && HexValue(erd) == Some(t.erd)
    ensures t.board == PRIMARY ==> Denotes(erd + "/" + op, t)
    ensures t.board != PRIMARY ==> Denotes(board + "_0x" + erd + "/" + op, t)
  {
    var primary, secondary := erd + "/" + op, board + "_0x" + erd + "/" + op;
    assert primary[..4] == erd && primary[5..] == op;
    assert secondary[..2] == board && secondary[5..9] == erd && secondary[10..] == op;
  }

  /** The underscore tells the two forms apart: a primary form has a hex digit there. */
  lemma ShapesExclusive(rest: string)
    ensures !(PrimaryShape(rest) && SecondaryShape(rest))
  {
    if PrimaryShape(rest) {
      HexFieldIsDigits(rest[..4], 2);
      DigitReprints(rest[2]);
    }
  }

  /** A text means at most one topic. */
  lemma DenotesOne(rest: string, t: Topic, u: Topic)
    requires Denotes(rest, t) && Denotes(rest, u)
    ensures t == u
  {
    ShapesExclusive(rest);
    OpNamesDiffer(t.op, u.op);
  }

  /** Printing is injective: distinct boards or ERDs never share a topic. */
  lemma PrintedInjective(deviceId: string, t: Topic, u: Topic)
    requires Printed(deviceId, t) == Printed(deviceId, u)
    ensures t == u
  {
    PrintedSpells(deviceId, t);
    PrintedSpells(deviceId, u);
    DenotesOne(Printed(deviceId, t)[|Stem(deviceId)|..], t, u);
  }

  /** The text after the stem with its hex fields, and nothing else, put in lowercase. */
  function LoweredFields(rest: string, primary: bool): (r: string)
    requires |rest| > if primary then 4 else 9
    ensures |r| == |rest|
  {
    if primary then Lowered(rest[..4]) + rest[4..]
    else Lowered(rest[..2]) + (rest[2..5] + (Lowered(rest[5..9]) + rest[9..]))
  }

  lemma Regroup(a: string, b: string, c: string, d: string)
    ensures a + b + c + d == a + (b + (c + d))
  {
  }


  lemma Joined(s: string, i: nat, c: char, rest: string)
    requires i < |s| && s[i] == c && s[i + 1..] == rest
    ensures s[i..] == [c] + rest
  {
  }

  lemma Three(s: string)
    requires |s| > 5 && s[2] == '_' && s[3] == '0' && s[4] == 'x'
    ensures s[2..5] == "_0x"
  {
  }

  lemma PrimaryFields(rest: string, t: Topic)
    requires Denotes(rest, t) && t.board == PRIMARY
    ensures |rest| > 4 && Fields(t) + ("/" + OpName(t.op)) == LoweredFields(rest, true)
  {
    hide Hex, HexValue, Lowered, OpName;
    HexReprints(rest[..4]);
    Joined(rest, 4, '/', OpName(t.op));
  }

  lemma SecondaryFields(rest: string, t: Topic)
    requires Denotes(rest, t) && t.board != PRIMARY
    ensures |rest| > 9 && Fields(t) + ("/" + OpName(t.op)) == LoweredFields(rest, false)
  {
    hide Hex, HexValue, Lowered, OpName;
    HexReprints(rest[..2]);
    HexReprints(rest[5..9]);
    Three(rest);
    Joined(rest, 9, '/', OpName(t.op));
    Regroup(Hex(t.board, 2), "_0x", Hex(t.erd, 4), "/" + OpName(t.op));
  }

  /** Conversely a text that means `t` is the print of `t`, up to the case of its hex digits. */
  lemma SpelledReprints(text: string, deviceId: string, t: Topic)
    requires Spells(text, deviceId, t)
    ensures Printed(deviceId, t)
         == text[..|Stem(deviceId)|] + LoweredFields(text[|Stem(deviceId)|..], t.board == PRIMARY)
  {
    hide Stem, Denotes, Fields, OpName, LoweredFields;
    var rest := text[|Stem(deviceId)|..];
    if t.board == PRIMARY { PrimaryFields(rest, t); } else { SecondaryFields(rest, t); }
    Regroup(Stem(deviceId), Fields(t), "/", OpName(t.op));
  }

  /** The grammar, letter by letter: the form without an address for the primary board, the form with it for any
      other; the field of a value is its only lowercase spelling of that width. */
  lemma TopicForms(deviceId: string, t: Topic, address: string, erd: string)
    requires |address| == 2 && HexValue(address) == Some(t.board) && Lowered(address) == address
    requires |erd| == 4 && HexValue(erd) == Some(t.erd) && Lowered(erd) == erd
    ensures var name := match t.op case Value => "value" case Write => "write" case WriteResult => "write_result";
            Printed(deviceId, t) == if t.board == 0xFF then "geappliances/" + deviceId + "/erd/0x" + erd + "/" + name
                                    else "geappliances/" + deviceId + "/erd/0x" + (address + "_0x" + erd) + "/" + name
  {
    hide Hex, HexValue, Lowered;
    HexReprints(address);
    HexReprints(erd);
  }

  /** Length of a printed topic, which decides whether it fits a buffer. */
  lemma PrintedLength(deviceId: string, t: Topic)
    ensures |Printed(deviceId, t)| == |deviceId| + (if t.board == PRIMARY then 25 else 30) + |OpName(t.op)|
  {
  }

  /** Reading back what was printed: exactly the printed topic, and nothing else, is meant. */
  lemma RoundTrip(deviceId: string, t: Topic, u: Topic)
    ensures Spells(Printed(deviceId, t), deviceId, u) <==> u == t
  {
    PrintedSpells(deviceId, t);
    if Spells(Printed(deviceId, t), deviceId, u) {
      DenotesOne(Printed(deviceId, t)[|Stem(deviceId)|..], t, u);
    }
  }

  // ---------------------------------------------------------------- C strings

  /** A C string in a buffer: there is a NUL; whatever follows the first one does not belong to the string. */
  ghost predicate Terminated(s: array<char>)
    reads s
  {
    '\0' in s[..]
  }

  /** strlen: the index of the first NUL. */
  ghost function Length(s: array<char>): (n: nat)
    requires Terminated(s)
    reads s
    ensures n < s.Length && s[n] == '\0' && '\0' !in s[..n]
  {
    FirstNul(s[..])
  }

  ghost function FirstNul(s: string): (n: nat)
    requires '\0' in s
    ensures n < |s| && s[n] == '\0' && '\0' !in s[..n]
  {
    if s[0] == '\0' then 0 else 1 + FirstNul(s[1..])
  }

  ghost function Text(s: array<char>): (text: string)
    requires Terminated(s)
    reads s
    ensures |text| == Length(s) && '\0' !in text
  {
    s[..Length(s)]
  }

  /** s[k]. All parsing reads through this function, so its precondition is checked at every read: no character
      past the terminator is ever looked at. */
  function At(s: array<char>, k: nat): (c: char)
    requires Terminated(s) && k <= Length(s)
    reads s
    ensures c == '\0' <==> k == Length(s)
    ensures k < Length(s) ==> c == Text(s)[k]
  {
    s[k]
  }

  lemma LengthIs(s: array<char>, n: nat)
    requires n < s.Length && s[n] == '\0' && '\0' !in s[..n]
    ensures Terminated(s) && Length(s) == n && Text(s) == s[..n]
  {
    assert s[..][n] == '\0';
  }

  /** strncmp(s + p, literal, |literal|) == 0; stops at the first difference, so at the NUL at the latest. */
  method StartsWith(s: array<char>, p: nat, literal: string) returns (starts: bool)
    requires Terminated(s) && p <= Length(s) && '\0' !in literal
    ensures starts <==> literal <= Text(s)[p..]
  {
    ghost var text := Text(s);
    var i := 0;
    while i < |literal|
      invariant i <= |literal| && p + i <= |text| && literal[..i] == text[p..p + i]
    {
      if At(s, p + i) != literal[i] {
        if literal <= text[p..] {
          assert false;
        }
        return false;
      }
      assert literal[..i + 1] == literal[..i] + [literal[i]];
      i := i + 1;
    }
    assert literal == text[p..p + i] == text[p..][..i];
    return true;
  }

  /** strcmp(s + p, literal) == 0 */
  method EndsAs(s: array<char>, p: nat, literal: string) returns (same: bool)
    requires Terminated(s) && p <= Length(s) && '\0' !in literal
    ensures same <==> Text(s)[p..] == literal
  {
    var starts := StartsWith(s, p, literal);
    if !starts {
      return false;
    }
    same := At(s, p + |literal|) == '\0';
  }

  /** Reads exactly `width` hex digits at `p`. */
  method ParseHexFixed(s: array<char>, p: nat, width: nat) returns (r: Option<nat>)
    requires Terminated(s) && p <= Length(s)
    ensures r.Some? <==> p + width <= Length(s) && HexValue(Text(s)[p..p + width]).Some?
    ensures r.Some? ==> r == HexValue(Text(s)[p..p + width])
  {
    ghost var text := Text(s);
    var value, i := 0, 0;
    while i < width
      invariant i <= width && p + i <= |text| && HexValue(text[p..p + i]) == Some(value)
    {
      var digit := DigitValue(At(s, p + i));
      if digit < 0 {
        if p + width <= |text| && HexValue(text[p..p + width]).Some? {
          HexFieldIsDigits(text[p..p + width], i);
        }
        return None;
      }
      assert text[p..p + i + 1][..i] == text[p..p + i];
      value := 16 * value + digit;
      i := i + 1;
    }
    return Some(value);
  }

  /** snprintf(buffer, size, "%s", text): as much as fits, then a NUL; the full length is reported. */
  method Snprintf(buffer: array<char>, text: string) returns (len: nat)
    modifies buffer
    ensures len == |text|
    ensures len < buffer.Length ==> buffer[..len] == text && buffer[len] == '\0'
  {
    var n := if |text| < buffer.Length then |text| else if buffer.Length == 0 then 0 else buffer.Length - 1;
    for i := 0 to n
      invariant forall k | 0 <= k < i :: buffer[k] == text[k]
    {
      buffer[i] := text[i];
    }
    if buffer.Length > 0 {
      buffer[n] := '\0';
    }
    return |text|;
  }

  lemma PrintedHasNoNul(deviceId: string, t: Topic)
    requires '\0' !in deviceId
    ensures '\0' !in Printed(deviceId, t)
  {
    HexHasNoNul(t.erd, 4);
    HexHasNoNul(t.board, 2);
    assert '\0' !in "geappliances/" && '\0' !in "/erd/0x" && '\0' !in "_0x" && '\0' !in "/";
  }

  lemma {:induction false} HexHasNoNul(n: nat, width: nat)
    ensures '\0' !in Hex(n, width)
    decreases width
  {
    if width > 0 {
      HexHasNoNul(n / 16, width - 1);
      assert '\0' !in "0123456789abcdef";
    }
  }

  /** Prints a topic into a fixed buffer; -1 when it does not fit. What the buffer holds past the terminator is left open. */
  method Format(buffer: array<char>, deviceId: string, t: Topic) returns (len: int)
    requires '\0' !in deviceId
    modifies buffer
    ensures len == -1 <==> |Printed(deviceId, t)| >= buffer.Length
    ensures len != -1 ==> Terminated(buffer) && len == Length(buffer) && Text(buffer) == Printed(deviceId, t)
  {
    if t.board == PRIMARY {
      len := Snprintf(buffer, "geappliances/" + deviceId + "/erd/0x" + Hex(t.erd, 4) + "/" + OpName(t.op));
    } else {
      var fields := Hex(t.board, 2) + "_0x" + Hex(t.erd, 4);
      len := Snprintf(buffer, "geappliances/" + deviceId + "/erd/0x" + fields + "/" + OpName(t.op));
    }
    if len >= buffer.Length {
      return -1;
    }
    PrintedHasNoNul(deviceId, t);
    LengthIs(buffer, len);
  }

  lemma PrefixSplits(a: string, b: string, text: string)
    ensures a + b <= text <==> a <= text && b <= text[|a|..]
  {
    if a + b <= text { assert text[..|a|] == (a + b)[..|a|] == a && text[|a|..][..|b|] == (a + b)[|a|..] == b; }
    if a <= text && b <= text[|a|..] { assert text[..|a| + |b|] == text[..|a|] + text[|a|..][..|b|]; }
  }

  /** The stem is matched piece by piece. */
  lemma StemParts(text: string, deviceId: string)
    ensures |"geappliances/"| == 13 && |"/erd/0x"| == 7 && |Stem(deviceId)| == 20 + |deviceId|
    ensures Stem(deviceId) <= text <==>
              && "geappliances/" <= text && deviceId <= text[13..] && "/erd/0x" <= text[13 + |deviceId|..]
    ensures "geappliances/" <= text ==> |text| >= 13
    ensures "geappliances/" <= text && deviceId <= text[13..] ==> |text| >= 13 + |deviceId|
  {
    var a := "geappliances/";
    assert |a| == 13;
    PrefixSplits(a, deviceId, text);
    PrefixSplits(a + deviceId, "/erd/0x", text);
  }

  lemma SpellsAfterStem(text: string, deviceId: string)
    ensures forall t :: Spells(text, deviceId, t) ==> Stem(deviceId) <= text && Denotes(text[|Stem(deviceId)|..], t)
    ensures forall t :: Stem(deviceId) <= text && Denotes(text[|Stem(deviceId)|..], t) ==> Spells(text, deviceId, t)
  {
    hide Stem, Denotes;
  }

  /** Accepts exactly the texts of the grammar for this device, and returns what they mean. */
  method Parse(s: array<char>, deviceId: string) returns (r: Option<Topic>)
    requires Terminated(s) && '\0' !in deviceId
    ensures r.Some? ==> Spells(Text(s), deviceId, r.value)
    ensures r.None? ==> forall t :: !Spells(Text(s), deviceId, t)
  {
    hide *;
    ghost var text := Text(s);
    SpellsAfterStem(text, deviceId);
    StemParts(text, deviceId);
    var ok := StartsWith(s, 0, "geappliances/");
    if !ok {
      return None;
    }
    var p := |"geappliances/"|;
    ok := StartsWith(s, p, deviceId);
    if !ok {
      return None;
    }
    p := p + |deviceId|;
    ok := StartsWith(s, p, "/erd/0x");
    if !ok {
      return None;
    }
    p := p + |"/erd/0x"|;
    r := ParseFields(s, p);
  }

  lemma PartOfRest(text: string, p: nat, i: nat, j: nat)
    requires i <= j && p + j <= |text|
    ensures text[p..][i..j] == text[p + i..p + j]
  {
    var part := text[p..][i..j];
    assert |part| == j - i;
    forall k | 0 <= k < j - i
      ensures part[k] == text[p + i..p + j][k]
    {
      assert part[k] == text[p..][i + k] == text[p + i + k];
    }
  }

  lemma FrontOfRest(text: string, p: nat, j: nat)
    requires p + j <= |text|
    ensures text[p..][..j] == text[p..p + j]
  {
    assert text[p..][0..j] == text[p..][..j];
    PartOfRest(text, p, 0, j);
  }

  /** The address and the ERD of the secondary form, if that is what stands at `p`. */
  method ParseSecondary(s: array<char>, p: nat) returns (r: Option<(nat, nat)>)
    requires Terminated(s) && p <= Length(s)
    ensures r.Some? <==> SecondaryShape(Text(s)[p..])
    ensures r.Some? ==>
              && r.value.0 == HexValue(Text(s)[p..][..2]).value
              && r.value.1 == HexValue(Text(s)[p..][5..9]).value
  {
    ghost var rest := Text(s)[p..];
    var address := ParseHexFixed(s, p, 2);
    if |rest| >= 2 { FrontOfRest(Text(s), p, 2); }
    if address.None? || At(s, p + 2) != '_' || At(s, p + 3) != '0' || At(s, p + 4) != 'x' {
      return None;
    }
    var erd := ParseHexFixed(s, p + 5, 4);
    if |rest| >= 9 { PartOfRest(Text(s), p, 5, 9); }
    if erd.None? || At(s, p + 9) != '/' {
      return None;
    }
    return Some((address.value, erd.value));
  }

  /** The ERD of the primary form, if that is what stands at `p`. */
  method ParsePrimary(s: array<char>, p: nat) returns (r: Option<nat>)
    requires Terminated(s) && p <= Length(s)
    ensures r.Some? <==> PrimaryShape(Text(s)[p..])
    ensures r.Some? ==> r.value == HexValue(Text(s)[p..][..4]).value
  {
    ghost var rest := Text(s)[p..];
    r := ParseHexFixed(s, p, 4);
    if |rest| >= 4 { FrontOfRest(Text(s), p, 4); }
    if r.Some? && At(s, p + 4) != '/' {
      return None;
    }
  }

  lemma PrimaryDenotes(rest: string, t: Topic)
    requires PrimaryShape(rest)
    ensures HexValue(rest[..4]).value < 0x1_0000
    ensures Denotes(rest, t) <==>
              t.board == PRIMARY && t.erd == HexValue(rest[..4]).value && rest[5..] == OpName(t.op)
  {
    ShapesExclusive(rest);
    HexReprints(rest[..4]);
    FieldRanges();
    hide HexValue, OpName;
  }

  lemma SecondaryDenotes(rest: string, t: Topic)
    requires SecondaryShape(rest)
    ensures HexValue(rest[..2]).value < 0x100 && HexValue(rest[5..9]).value < 0x1_0000
    ensures Denotes(rest, t) <==>
              && t.board != PRIMARY && t.board == HexValue(rest[..2]).value && t.erd == HexValue(rest[5..9]).value
              && rest[10..] == OpName(t.op)
  {
    ShapesExclusive(rest);
    HexReprints(rest[..2]);
    HexReprints(rest[5..9]);
    FieldRanges();
    hide HexValue, OpName;
  }

  lemma NothingDenotes(rest: string, t: Topic)
    requires !PrimaryShape(rest) && !SecondaryShape(rest)
    ensures !Denotes(rest, t)
  {
    hide HexValue, OpName;
  }

  /** What the characters after the stem mean: the secondary form is tried first. */
  method ParseFields(s: array<char>, p: nat) returns (r: Option<Topic>)
    requires Terminated(s) && p <= Length(s)
    ensures r.Some? ==> Denotes(Text(s)[p..], r.value)
    ensures r.None? ==> forall t :: !Denotes(Text(s)[p..], t)
  {
    ghost var rest := Text(s)[p..];
    var secondary := ParseSecondary(s, p);
    if secondary.Some? {
      r := ParseSecondaryOp(s, p, secondary.value.0, secondary.value.1);
    } else {
      var primary := ParsePrimary(s, p);
      if primary.None? {
        forall t ensures !Denotes(rest, t) { NothingDenotes(rest, t); }
        return None;
      }
      r := ParsePrimaryOp(s, p, primary.value);
    }
  }

  /** The rest of a secondary topic, whose address must not be the one reserved for the primary board. */
  method ParseSecondaryOp(s: array<char>, p: nat, board: nat, erd: nat) returns (r: Option<Topic>)
    requires Terminated(s) && p <= Length(s) && SecondaryShape(Text(s)[p..])
    requires board == HexValue(Text(s)[p..][..2]).value && erd == HexValue(Text(s)[p..][5..9]).value
    ensures r.Some? ==> Denotes(Text(s)[p..], r.value)
    ensures r.None? ==> forall t :: !Denotes(Text(s)[p..], t)
  {
    ghost var rest := Text(s)[p..];
    forall t ensures Denotes(rest, t) <==>
                       t.board != PRIMARY && t.board == board && t.erd == erd && rest[10..] == OpName(t.op)
    {
      SecondaryDenotes(rest, t);
    }
    SecondaryDenotes(rest, Topic(0, 0, Value));
    hide Denotes, HexValue, OpName;
    if board == PRIMARY {
      return None;
    }
    assert Text(s)[p + 10..] == rest[10..];
    var op := ParseOp(s, p + 10);
    return if op.None? then None else Some(Topic(board, erd, op.value));
  }

  method ParsePrimaryOp(s: array<char>, p: nat, erd: nat) returns (r: Option<Topic>)
    requires Terminated(s) && p <= Length(s) && PrimaryShape(Text(s)[p..])
    requires erd == HexValue(Text(s)[p..][..4]).value
    ensures r.Some? ==> Denotes(Text(s)[p..], r.value)
    ensures r.None? ==> forall t :: !Denotes(Text(s)[p..], t)
  {
    ghost var rest := Text(s)[p..];
    forall t ensures Denotes(rest, t) <==> t.board == PRIMARY && t.erd == erd && rest[5..] == OpName(t.op) {
      PrimaryDenotes(rest, t);
    }
    PrimaryDenotes(rest, Topic(0, 0, Value));
    hide Denotes, HexValue, OpName;
    assert Text(s)[p + 5..] == rest[5..];
    var op := ParseOp(s, p + 5);
    return if op.None? then None else Some(Topic(PRIMARY, erd, op.value));
  }

  method ParseOp(s: array<char>, p: nat) returns (r: Option<Op>)
    requires Terminated(s) && p <= Length(s)
    ensures r.Some? ==> Text(s)[p..] == OpName(r.value)
    ensures r.None? ==> forall op :: Text(s)[p..] != OpName(op)
  {
    var ops := [Value, Write, WriteResult];
    for i := 0 to |ops|
      invariant forall k | 0 <= k < i :: Text(s)[p..] != OpName(ops[k])
    {
      var same := EndsAs(s, p, OpName(ops[i]));
      if same {
        return Some(ops[i]);
      }
    }
    forall op: Op ensures Text(s)[p..] != OpName(op) {
      assert op == ops[0] || op == ops[1] || op == ops[2];
    }
    return None;
  }

  // ---------------------------------------------------------------- one buffer, both ways

  /** Printing into a buffer, whatever it held, and parsing that same buffer gives the topic back, for every
      device, board, ERD and operation whose topic fits. */
  method FormatThenParse(buffer: array<char>, deviceId: string, t: Topic) returns (len: int, r: Option<Topic>)
    requires '\0' !in deviceId
    modifies buffer
    ensures len == -1 <==> |Printed(deviceId, t)| >= buffer.Length
    ensures r == if len == -1 then None else Some(t)
  {
    len := Format(buffer, deviceId, t);
    if len == -1 {
      return len, None;
    }
    r := Parse(buffer, deviceId);
    RoundTrip(deviceId, t, t);
    assert Spells(Text(buffer), deviceId, t);
    if r.Some? {
      RoundTrip(deviceId, t, r.value);
    }
  }

  /** Long enough to hold the stem and the fields. */
  predicate Spelled(text: string, deviceId: string, primary: bool) {
    |text| > |Stem(deviceId)| + if primary then 4 else 9
  }

  /** A topic text with its hex fields, and nothing else, put in lowercase. */
  function LoweredTopic(text: string, deviceId: string, primary: bool): string
    requires Spelled(text, deviceId, primary)
  {
    Stem(deviceId) + LoweredFields(text[|Stem(deviceId)|..], primary)
  }

  /** Parsing a buffer and printing what it means gives the text back with its hex fields in lowercase. */
  method ParseThenFormat(s: array<char>, buffer: array<char>, deviceId: string) returns (r: Option<Topic>, len: int)
    requires Terminated(s) && '\0' !in deviceId && s != buffer
    modifies buffer
    ensures r.None? ==> forall t :: !Spells(Text(s), deviceId, t)
    ensures r.Some? ==>
              && Spells(Text(s), deviceId, r.value) && Spelled(Text(s), deviceId, r.value.board == PRIMARY)
              && (len == -1 <==> Length(s) >= buffer.Length)
              && (len != -1 ==>
                    Terminated(buffer) && Text(buffer) == LoweredTopic(Text(s), deviceId, r.value.board == PRIMARY))
  {
    hide Spells, LoweredTopic, Printed, Spelled;
    r := Parse(s, deviceId);
    len := -1;
    if r.Some? {
      SpelledLowered(Text(s), deviceId, r.value);
      len := Format(buffer, deviceId, r.value);
    }
  }

  lemma SpelledLowered(text: string, deviceId: string, t: Topic)
    requires Spells(text, deviceId, t)
    ensures Spelled(text, deviceId, t.board == PRIMARY)
    ensures |text| == |Printed(deviceId, t)|
    ensures Printed(deviceId, t) == LoweredTopic(text, deviceId, t.board == PRIMARY)
  {
    SpelledReprints(text, deviceId, t);
    hide LoweredFields, Printed, Stem, Denotes;
    assert text[..|Stem(deviceId)|] == Stem(deviceId);
  }
}
