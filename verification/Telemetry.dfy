/** The telemetry line: printed by the layer once per present, parsed by the HUD.
    Text is ASCII, so a string's length is its length in bytes. */
module Telemetry {
  import opened Wrappers
  import opened Word64

  // ----- Numbers

  function DigitChar(d: nat): char
    requires d < 16
  {
    if d < 10 then '0' + d as char else 'a' + (d - 10) as char
  }

  function DigitValue(c: char): nat {
    if '0' <= c <= '9' then (c - '0') as nat
    else if 'a' <= c <= 'f' then (c - 'a') as nat + 10
    else if 'A' <= c <= 'F' then (c - 'A') as nat + 10
    else 16
  }

  /** Numbers are written in base 10, or in base 16 for the queue. */
  datatype Base = Decimal | Hex {
    function Size(): nat { if Decimal? then 10 else 16 }
    function Times(n: nat): nat { if Decimal? then 10 * n else 16 * n }
    function Div(n: nat): nat { if Decimal? then n / 10 else n / 16 }
    function Mod(n: nat): nat { if Decimal? then n % 10 else n % 16 }
  }

  /** A number without leading zeros, lower case. */
  function Number(n: nat, base: Base): string {
    if n < base.Size() then [DigitChar(n)]
    else Number(base.Div(n), base) + [DigitChar(base.Mod(n))]
  }

  /** The value of a digit string, None on a foreign character or past 64 bits. */
  function Value(s: string, base: Base): Option<nat> {
    if s == "" then Some(0)
    else
      var before, d := Value(s[..|s| - 1], base), DigitValue(s[|s| - 1]);
      if before.None? || d >= base.Size() || base.Times(before.value) + d >= WORD_SIZE then None
      else Some(base.Times(before.value) + d)
  }

  /** u64::from_str_radix: an optional plus sign, then at least one digit. */
  function FromRadix(s: string, base: Base): Option<nat> {
    var digits := if s != "" && s[0] == '+' then s[1..] else s;
    if digits == "" then None else Value(digits, base)
  }

  lemma LastDigit(n: nat, base: Base)
    ensures base.Times(base.Div(n)) + base.Mod(n) == n && base.Mod(n) < base.Size()
  {}

  lemma AppendedDigit(front: string, c: char, base: Base)
    requires DigitValue(c) < base.Size() && Value(front, base).Some?
    requires base.Times(Value(front, base).value) + DigitValue(c) < WORD_SIZE
    ensures Value(front + [c], base) == Some(base.Times(Value(front, base).value) + DigitValue(c))
  {
    var s := front + [c];
    assert s[..|s| - 1] == front && s[|s| - 1] == c;
  }

  lemma {:induction false} NumberRoundTrip(n: nat, base: Base)
    requires n < WORD_SIZE
    ensures Value(Number(n, base), base) == Some(n)
    ensures forall c :: c in Number(n, base) ==> DigitValue(c) < base.Size()
  {
    if n < base.Size() {
      DigitOf(n);
      assert Number(n, base)[..0] == "";
    } else {
      LastDigit(n, base);
      NumberRoundTrip(base.Div(n), base);
      DigitOf(base.Mod(n));
      AppendedDigit(Number(base.Div(n), base), DigitChar(base.Mod(n)), base);
    }
  }

  lemma DigitOf(d: nat)
    requires d < 16
    ensures DigitValue(DigitChar(d)) == d
  {}

  lemma NumberParses(n: nat, base: Base)
    requires n < WORD_SIZE
    ensures FromRadix(Number(n, base), base) == Some(n)
  {
    NumberRoundTrip(n, base);
    assert Number(n, base)[0] in Number(n, base);
  }

  lemma {:induction false} NumberLength(n: nat, base: Base, bits: nat)
    requires n < Pow2(bits) && bits > 0
    ensures |Number(n, base)| <= bits
    decreases bits
  {
    if n >= base.Size() {
      assert base.Div(n) <= n / 2 < Pow2(bits - 1);
      NumberLength(base.Div(n), base, bits - 1);
    }
  }

  // ----- Text

  predicate IsSpace(c: char) { c == ' ' || '\t' <= c <= '\r' }

  function TrimStart(s: string, drop: char -> bool): string {
    if s != "" && drop(s[0]) then TrimStart(s[1..], drop) else s
  }

  function TrimEnd(s: string, drop: char -> bool): string {
    if s != "" && drop(s[|s| - 1]) then TrimEnd(s[..|s| - 1], drop) else s
  }

  function TrimBoth(s: string, drop: char -> bool): string { TrimEnd(TrimStart(s, drop), drop) }

  function Trim(s: string): string { TrimBoth(s, IsSpace) }

  function Unquoted(s: string): string { TrimBoth(s, c => c == '"') }

  function SplitOnce(s: string, at: char): Option<(string, string)> {
    if s == "" then None
    else if s[0] == at then Some(("", s[1..]))
    else match SplitOnce(s[1..], at)
      case Some(p) => Some(([s[0]] + p.0, p.1))
      case None => None
  }

  /** str::split: the pieces between separators, at least one. */
  function Split(s: string, at: char): seq<string>
    decreases |s|
  {
    match SplitOnce(s, at)
    case None => [s]
    case Some(p) => SplitShrinks(s, at); [p.0] + Split(p.1, at)
  }

  lemma {:induction false} SplitShrinks(s: string, at: char)
    requires SplitOnce(s, at).Some?
    ensures |SplitOnce(s, at).value.1| < |s|
  {
    if s[0] != at { SplitShrinks(s[1..], at); }
  }

  function Join(parts: seq<string>, at: char): string
    requires parts != []
  {
    if |parts| == 1 then parts[0] else parts[0] + [at] + Join(parts[1..], at)
  }

  lemma {:induction false} SplitOnceAt(k: string, at: char, v: string)
    requires at !in k
    ensures SplitOnce(k + [at] + v, at) == Some((k, v))
  {
    var s := k + [at] + v;
    if k == "" {
      assert s[1..] == v;
    } else {
      assert s[1..] == k[1..] + [at] + v;
      SplitOnceAt(k[1..], at, v);
      assert [k[0]] + k[1..] == k;
    }
  }

  lemma {:induction false} SplitOnceNone(s: string, at: char)
    requires at !in s
    ensures SplitOnce(s, at) == None
  {
    if s != "" { SplitOnceNone(s[1..], at); }
  }

  lemma {:induction false} SplitUndoesJoin(parts: seq<string>, at: char)
    requires parts != [] && forall p :: p in parts ==> at !in p
    ensures Split(Join(parts, at), at) == parts
  {
    if |parts| == 1 {
      SplitOnceNone(parts[0], at);
    } else {
      SplitOnceAt(parts[0], at, Join(parts[1..], at));
      SplitUndoesJoin(parts[1..], at);
    }
  }

  lemma TrimNothing(s: string, drop: char -> bool)
    requires s != "" && !drop(s[0]) && !drop(s[|s| - 1])
    ensures TrimBoth(s, drop) == s
  {}

  lemma UnquotedQuoted(s: string)
    requires '"' !in s && s != ""
    ensures Unquoted("\"" + s + "\"") == s
  {
    var q := (c: char) => c == '"';
    var all := "\"" + s + "\"";
    assert all[1..] == s + "\"";
    assert TrimStart(all, q) == TrimStart(s + "\"", q) == s + "\"";
    assert (s + "\"")[..|s|] == s;
    assert TrimEnd(s + "\"", q) == TrimEnd(s, q) == s;
  }

  // ----- Records

  datatype Record = Record(tsNs: nat, frame: nat, queue: nat, pid: nat, latencyUs: nat)

  datatype Key = Ts | FrameNo | Queue | Pid | Latency

  datatype Field = Field(key: Key, value: nat)

  function KeyName(k: Key): string {
    match k
    case Ts => "ts" case FrameNo => "frame" case Queue => "queue" case Pid => "pid" case Latency => "latency_us"
  }

  function Get(r: Record, k: Key): nat {
    match k
    case Ts => r.tsNs case FrameNo => r.frame case Queue => r.queue case Pid => r.pid case Latency => r.latencyUs
  }

  function Set(r: Record, f: Field): Record {
    match f.key
    case Ts => r.(tsNs := f.value)
    case FrameNo => r.(frame := f.value)
    case Queue => r.(queue := f.value)
    case Pid => r.(pid := f.value)
    case Latency => r.(latencyUs := f.value)
  }

  const EMPTY: Record := Record(0, 0, 0, 0, 0)
  const MAX_LINE_BYTES: nat := 1024

  // ----- Parsing

  function ParseU64(s: string): Option<nat> { FromRadix(Trim(s), Decimal) }

  function ParseQueue(s: string): Option<nat> {
    var t := Unquoted(Trim(s));
    if |t| >= 2 && (t[..2] == "0x" || t[..2] == "0X") then FromRadix(t[2..], Hex) else FromRadix(t, Decimal)
  }

  /** The key named by the text, if it is one the HUD knows. */
  function KeyOf(name: string): Option<Key> {
    if name == "ts" then Some(Ts)
    else if name == "frame" then Some(FrameNo)
    else if name == "queue" then Some(Queue)
    else if name == "pid" then Some(Pid)
    else if name == "latency_us" then Some(Latency)
    else None
  }

  function ParsePart(rec: Record, part: string): Option<Record> {
    match SplitOnce(part, ':')
    case None => None
    case Some(p) =>
      var value := Trim(p.1);
      match KeyOf(Unquoted(Trim(p.0)))
      case None => Some(rec)
      case Some(key) =>
        match if key.Queue? then ParseQueue(value) else ParseU64(value)
        case None => None
        case Some(n) => Some(Set(rec, Field(key, n)))
  }

  ghost function ParseParts(parts: seq<string>): Option<Record> {
    if parts == [] then Some(EMPTY)
    else match ParseParts(parts[..|parts| - 1])
      case None => None
      case Some(rec) => ParsePart(rec, parts[|parts| - 1])
  }

  /** The text between the braces. */
  function Body(line: string): Option<string> {
    var s := Trim(TrimEnd(line, c => c == '\n' || c == '\r'));
    if |s| >= 2 && s[0] == '{' && s[|s| - 1] == '}' then Some(s[1..|s| - 1]) else None
  }

  ghost function Parsed(line: string): Option<Record> {
    if |line| > MAX_LINE_BYTES || Body(line).None? then None
    else ParseParts(Split(Body(line).value, ','))
  }

  /** parse_line */
  method ParseLine(line: string) returns (r: Option<Record>)
    ensures r == Parsed(line)
  {
    if |line| > MAX_LINE_BYTES { return None; }
    var s := Body(line);
    if s.None? { return None; }
    var rec := EMPTY;
    var parts := Split(s.value, ',');
    var i := 0;
    while i < |parts|
      invariant 0 <= i <= |parts|
      invariant ParseParts(parts[..i]) == Some(rec)
    {
      assert parts[..i + 1][..i] == parts[..i];
      var next := ParsePart(rec, parts[i]);
      if next.None? {
        FailureStays(parts, i + 1);
        return None;
      }
      rec := next.value;
      i := i + 1;
    }
    assert parts[..i] == parts;
    return Some(rec);
  }

  lemma {:induction false} FailureStays(parts: seq<string>, i: nat)
    requires i <= |parts| && ParseParts(parts[..i]) == None
    ensures ParseParts(parts) == None
    decreases |parts|
  {
    if i < |parts| {
      assert parts[..|parts| - 1][..i] == parts[..i];
      FailureStays(parts[..|parts| - 1], i);
    } else {
      assert parts[..i] == parts;
    }
  }

  // ----- Printing

  function ValueText(f: Field): string {
    if f.key.Queue? then "\"" + ("0x" + Number(f.value, Hex)) + "\"" else Number(f.value, Decimal)
  }

  function Text(f: Field): string { "\"" + KeyName(f.key) + "\"" + ":" + ValueText(f) }

  function Texts(fs: seq<Field>): (r: seq<string>)
    ensures |r| == |fs| && forall i :: 0 <= i < |fs| ==> r[i] == Text(fs[i])
  {
    if fs == [] then [] else [Text(fs[0])] + Texts(fs[1..])
  }

  function LineOf(fs: seq<Field>): string
    requires fs != []
  {
    "{" + Join(Texts(fs), ',') + "}" + "\n"
  }

  function FieldsOf(r: Record): seq<Field> {
    [Field(Ts, r.tsNs), Field(FrameNo, r.frame), Field(Queue, r.queue), Field(Pid, r.pid), Field(Latency, r.latencyUs)]
  }

  /** The line the layer writes for one present. */
  function Print(r: Record): string { LineOf(FieldsOf(r)) }

  predicate Fits(r: Record) { forall k: Key :: Get(r, k) < WORD_SIZE }

  // ----- Round trip

  /** What the printed digits of a value are. */
  lemma DigitsText(n: nat, base: Base)
    requires n < WORD_SIZE
    ensures var digits := Number(n, base);
            && FromRadix(digits, base) == Some(n)
            && 0 < |digits| <= 64
            && forall c :: c in digits ==> DigitValue(c) < base.Size()
  {
    NumberRoundTrip(n, base);
    NumberParses(n, base);
    WordSize();
    NumberLength(n, base, 64);
  }

  lemma PlainTextParses(n: nat)
    requires n < WORD_SIZE
    ensures var t := Number(n, Decimal);
            Trim(t) == t && ',' !in t && ParseU64(t) == Some(n) && |t| <= 68
  {
    var t := Number(n, Decimal);
    DigitsText(n, Decimal);
    assert t[0] in t && t[|t| - 1] in t;
    TrimNothing(t, IsSpace);
  }

  lemma QueueTextParses(n: nat)
    requires n < WORD_SIZE
    ensures var t := "\"" + ("0x" + Number(n, Hex)) + "\"";
            Trim(t) == t && ',' !in t && ParseQueue(t) == Some(n) && |t| <= 68
  {
    var hex := "0x" + Number(n, Hex);
    var t := "\"" + hex + "\"";
    DigitsText(n, Hex);
    assert hex[2] in Number(n, Hex) && hex[|hex| - 1] in Number(n, Hex);
    TrimNothing(t, IsSpace);
    UnquotedQuoted(hex);
    assert hex[..2] == "0x" && hex[2..] == Number(n, Hex);
  }

  lemma ValueTextParses(f: Field)
    requires f.value < WORD_SIZE
    ensures Trim(ValueText(f)) == ValueText(f) && ',' !in ValueText(f)
    ensures (if f.key.Queue? then ParseQueue(ValueText(f)) else ParseU64(ValueText(f))) == Some(f.value)
    ensures |ValueText(f)| <= 68
  {
    if f.key.Queue? { QueueTextParses(f.value); } else { PlainTextParses(f.value); }
  }

  lemma NameParses(k: Key)
    ensures Trim("\"" + KeyName(k) + "\"") == "\"" + KeyName(k) + "\""
    ensures Unquoted("\"" + KeyName(k) + "\"") == KeyName(k)
    ensures KeyOf(KeyName(k)) == Some(k)
    ensures ':' !in KeyName(k) && ',' !in KeyName(k) && |KeyName(k)| <= 10
  {
    TrimNothing("\"" + KeyName(k) + "\"", IsSpace);
    UnquotedQuoted(KeyName(k));
  }

  /** One printed field sets exactly its own component. */
  lemma FieldParses(rec: Record, f: Field)
    requires f.value < WORD_SIZE
    ensures ParsePart(rec, Text(f)) == Some(Set(rec, f))
    ensures ',' !in Text(f) && |Text(f)| <= 81
  {
    NameParses(f.key);
    ValueTextParses(f);
    SplitOnceAt("\"" + KeyName(f.key) + "\"", ':', ValueText(f));
  }

  ghost function Assigned(fs: seq<Field>): Record {
    if fs == [] then EMPTY else Set(Assigned(fs[..|fs| - 1]), fs[|fs| - 1])
  }

  lemma {:induction false} TextsParse(fs: seq<Field>)
    requires forall f :: f in fs ==> f.value < WORD_SIZE
    ensures ParseParts(Texts(fs)) == Some(Assigned(fs))
  {
    if fs != [] {
      var n := |fs| - 1;
      TextsParse(fs[..n]);
      assert Texts(fs)[..n] == Texts(fs[..n]);
      FieldParses(Assigned(fs[..n]), fs[n]);
    }
  }

  /** A component ends up with the value its fields agree on. */
  lemma {:induction false} AssignedValue(fs: seq<Field>, k: Key, v: nat)
    requires forall f :: f in fs && f.key == k ==> f.value == v
    ensures (exists f :: f in fs && f.key == k) ==> Get(Assigned(fs), k) == v
  {
    if fs != [] && fs[|fs| - 1].key != k {
      var n := |fs| - 1;
      AssignedValue(fs[..n], k, v);
      if f :| f in fs && f.key == k { assert f in fs[..n]; }
    }
  }

  lemma {:induction false} JoinLength(parts: seq<string>)
    requires parts != [] && forall p :: p in parts ==> |p| <= 81
    ensures |Join(parts, ',')| <= 82 * |parts|
  {
    if |parts| > 1 { JoinLength(parts[1..]); }
  }

  lemma BodyOf(s: string)
    ensures Body("{" + s + "}" + "\n") == Some(s)
  {
    var newline := (c: char) => c == '\n' || c == '\r';
    var line, t := "{" + s + "}" + "\n", "{" + s + "}";
    assert line[..|line| - 1] == t;
    assert TrimEnd(line, newline) == TrimEnd(t, newline) == t;
    TrimNothing(t, IsSpace);
    assert t[1..|t| - 1] == s;
  }

  lemma TextsAreShort(fs: seq<Field>)
    requires forall f :: f in fs ==> f.value < WORD_SIZE
    ensures forall p :: p in Texts(fs) ==> ',' !in p && |p| <= 81
  {
    forall p | p in Texts(fs) ensures ',' !in p && |p| <= 81 {
      var i :| 0 <= i < |fs| && p == Text(fs[i]);
      FieldParses(EMPTY, fs[i]);
    }
  }

  /** The layer's lines are well below the length the HUD rejects. */
  lemma LineFits(fs: seq<Field>)
    requires 0 < |fs| <= 10 && forall f :: f in fs ==> f.value < WORD_SIZE
    ensures |LineOf(fs)| <= MAX_LINE_BYTES
  {
    TextsAreShort(fs);
    JoinLength(Texts(fs));
  }

  /** Any line of printed fields parses to what the fields assign. */
  lemma LineParses(fs: seq<Field>)
    requires 0 < |fs| <= 10 && forall f :: f in fs ==> f.value < WORD_SIZE
    ensures Parsed(LineOf(fs)) == Some(Assigned(fs))
  {
    LineFits(fs);
    BodyOf(Join(Texts(fs), ','));
    TextsAreShort(fs);
    SplitUndoesJoin(Texts(fs), ',');
    ParsedFrom(LineOf(fs), Join(Texts(fs), ','), Texts(fs));
    TextsParse(fs);
  }

  lemma ParsedFrom(line: string, body: string, parts: seq<string>)
    requires |line| <= MAX_LINE_BYTES && Body(line) == Some(body) && Split(body, ',') == parts
    ensures Parsed(line) == ParseParts(parts)
  {}

  ghost predicate HasField(fs: seq<Field>, k: Key) { exists f :: f in fs && f.key == k }

  /** The five fields of a record, in any order, parse back to the record. */
  lemma AnyOrderParses(r: Record, fs: seq<Field>)
    requires Fits(r) && multiset(fs) == multiset(FieldsOf(r))
    ensures fs != [] && Parsed(LineOf(fs)) == Some(r)
  {
    FieldsOfRecord(r, fs);
    LineParses(fs);
    forall k: Key ensures Get(Assigned(fs), k) == Get(r, k) {
      assert HasField(fs, k);
      AssignedValue(fs, k, Get(r, k));
    }
    SameComponents(Assigned(fs), r);
  }

  lemma FieldsOfRecord(r: Record, fs: seq<Field>)
    requires Fits(r) && multiset(fs) == multiset(FieldsOf(r))
    ensures |fs| == 5
    ensures forall f :: f in fs ==> f.value == Get(r, f.key) && f.value < WORD_SIZE
    ensures forall k: Key :: HasField(fs, k)
  {
    assert |multiset(fs)| == 5;
    forall f | f in fs ensures f.value == Get(r, f.key) {
      assert f in multiset(FieldsOf(r));
      assert f in FieldsOf(r);
    }
    forall k: Key ensures HasField(fs, k) {
      var f := Field(k, Get(r, k));
      assert f in FieldsOf(r);
      assert f in multiset(fs);
    }
  }

  lemma SameComponents(a: Record, b: Record)
    requires forall k: Key :: Get(a, k) == Get(b, k)
    ensures a == b
  {
    assert Get(a, Ts) == Get(b, Ts) && Get(a, FrameNo) == Get(b, FrameNo) && Get(a, Queue) == Get(b, Queue);
    assert Get(a, Pid) == Get(b, Pid) && Get(a, Latency) == Get(b, Latency);
  }

  /** The HUD reads exactly what the layer wrote, for every record of 64-bit values. */
  lemma RoundTrip(r: Record)
    requires Fits(r)
    ensures Parsed(Print(r)) == Some(r)
  {
    AnyOrderParses(r, FieldsOf(r));
  }

  // ----- The format itself

  /** What is left of a number without its last k digits. */
  function Shifted(n: nat, base: Base, k: nat): nat {
    if k == 0 then n else Shifted(if base.Decimal? then n / 10 else n / 16, base, k - 1)
  }

  /** The printed digits of a number, from the right, are its decimal or hexadecimal digits in
      lower case, as many as it takes and no leading zero. */
  lemma {:induction false} DigitsOfNumber(n: nat, base: Base, k: nat)
    requires k < |Number(n, base)|
    ensures var s := Number(n, base);
            var rest := Shifted(n, base, k);
            && s[|s| - 1 - k] == "0123456789abcdef"[if base.Decimal? then rest % 10 else rest % 16]
            && Shifted(n, base, |s|) == 0
            && (|s| > 1 ==> s[0] != '0')
  {
    var s := Number(n, base);
    if n < base.Size() {
      DigitCharIs(n);
      assert Shifted(n, base, 1) == Shifted(0, base, 0);
    } else {
      LastDigit(n, base);
      DigitCharIs(base.Mod(n));
      var front := Number(base.Div(n), base);
      DigitsOfNumber(base.Div(n), base, if k == 0 then 0 else k - 1);
      assert |front| == 1 ==> front[0] != '0' by {
        if |front| == 1 { OneDigit(base.Div(n), base); }
      }
    }
  }

  lemma DigitCharIs(d: nat)
    requires d < 16
    ensures DigitChar(d) == "0123456789abcdef"[d]
  {}

  lemma OneDigit(n: nat, base: Base)
    requires |Number(n, base)| == 1 && n > 0
    ensures Number(n, base)[0] != '0'
  {
    if n >= base.Size() { LongNumber(n, base); }
  }

  lemma LongNumber(n: nat, base: Base)
    requires n >= base.Size()
    ensures |Number(n, base)| > 1
  {
    assert Number(base.Div(n), base) != "";
  }

  /** A member of the object, with its text. */
  function Member(name: string, text: string): string { "\"" + name + "\"" + ":" + text }

  /** The line, member by member. */
  lemma LineFormat(r: Record)
    ensures Print(r) ==
              "{" + (Member("ts", Number(r.tsNs, Decimal)) + ","
                     + (Member("frame", Number(r.frame, Decimal)) + ","
                        + (Member("queue", "\"" + ("0x" + Number(r.queue, Hex)) + "\"") + ","
                           + (Member("pid", Number(r.pid, Decimal)) + ","
                              + Member("latency_us", Number(r.latencyUs, Decimal)))))) + "}" + "\n"
  {
    var fs := FieldsOf(r);
    var t := Texts(fs);
    assert t == [t[0], t[1], t[2], t[3], t[4]];
    JoinFive(t[0], t[1], t[2], t[3], t[4]);
  }

  lemma JoinFive(a: string, b: string, c: string, d: string, e: string)
    ensures Join([a, b, c, d, e], ',') == a + "," + (b + "," + (c + "," + (d + "," + e)))
  {
    assert [a, b, c, d, e][1..] == [b, c, d, e] && [b, c, d, e][1..] == [c, d, e];
    assert [c, d, e][1..] == [d, e] && [d, e][1..] == [e];
    assert Join([e], ',') == e;
    assert Join([d, e], ',') == d + "," + e;
    assert Join([c, d, e], ',') == c + "," + (d + "," + e);
  }

  // ----- Lines the layer does not write

  /** A field the HUD does not know is skipped, whatever its value. */
  lemma UnknownFieldIsSkipped(rec: Record, name: string, value: string)
    requires name != "" && ':' !in name && '"' !in name
    requires name !in ["ts", "frame", "queue", "pid", "latency_us"]
    ensures ParsePart(rec, "\"" + name + "\":" + value) == Some(rec)
  {
    var quoted := "\"" + name + "\"";
    assert "\"" + name + "\":" + value == quoted + [':'] + value;
    SplitOnceAt(quoted, ':', value);
    TrimNothing(quoted, IsSpace);
    UnquotedQuoted(name);
    assert forall k :: KeyOf(name) == Some(k) ==> name in ["ts", "frame", "queue", "pid", "latency_us"];
  }

  /** One field that cannot be read fails the line, wherever it stands. */
  lemma {:induction false} BadFieldFailsTheLine(parts: seq<string>, i: nat)
    requires i < |parts| && forall rec :: ParsePart(rec, parts[i]) == None
    ensures ParseParts(parts) == None
  {
    var n := |parts| - 1;
    if i < n { BadFieldFailsTheLine(parts[..n], i); }
  }

  /** A field without a colon cannot be read. */
  lemma NoColonCannotBeRead(part: string)
    ensures ':' !in part ==> forall rec :: ParsePart(rec, part) == None
  {
    if ':' !in part { SplitOnceNone(part, ':'); }
  }

  /** A line that is too long, or is not in braces, is dropped. */
  lemma BadLinesAreDropped(line: string)
    ensures |line| > 1024 ==> Parsed(line) == None
    ensures '{' !in line || '}' !in line ==> Parsed(line) == None
  {
    if Body(line).Some? {
      var q := (c: char) => c == '\n' || c == '\r';
      TrimKeeps(line, q);
      TrimKeeps(TrimEnd(line, q), IsSpace);
      var s := Trim(TrimEnd(line, q));
      assert s[0] in s && s[|s| - 1] in s;
    }
  }

  lemma {:induction false} TrimKeeps(s: string, drop: char -> bool)
    ensures forall c :: c in TrimEnd(s, drop) ==> c in s
    ensures forall c :: c in TrimStart(s, drop) ==> c in s
    ensures forall c :: c in TrimBoth(s, drop) ==> c in s
    decreases |s|, 1
  {
    TrimEndKeeps(s, drop);
    TrimStartKeeps(s, drop);
    TrimEndKeeps(TrimStart(s, drop), drop);
  }

  lemma {:induction false} TrimEndKeeps(s: string, drop: char -> bool)
    ensures forall c :: c in TrimEnd(s, drop) ==> c in s
  {
    if s != "" && drop(s[|s| - 1]) { TrimEndKeeps(s[..|s| - 1], drop); }
  }

  lemma {:induction false} TrimStartKeeps(s: string, drop: char -> bool)
    ensures forall c :: c in TrimStart(s, drop) ==> c in s
  {
    if s != "" && drop(s[0]) { TrimStartKeeps(s[1..], drop); }
  }
}
