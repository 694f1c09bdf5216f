/** The list of number pairs that src/serializer.cpp keeps as text. */
module Serialization {
  import opened Basics
  import opened Streams

  datatype Record = Record(first: int, second: int)

  const FORMAT_VERSION := 1

  predicate Int32(n: int) { -0x8000_0000 <= n <= 0x7fff_ffff }

  ghost predicate Fits(r: Record) { Int32(r.first) && Int32(r.second) }

  // ----- numbers -----

  function NatText(n: nat): (s: string)
    ensures s != [] && Digits(s)
    decreases n
  {
    (if n < 10 then [] else NatText(n / 10)) + ['0' + (n % 10) as char]
  }

  function IntText(n: int): string {
    if n < 0 then ['-'] + NatText(-n) else NatText(n)
  }

  /** `lexical_cast<int>`: a sign or none, digits, and no more than 32 bits. */
  function ParseInt(s: string): Option<int> {
    var negative := s != [] && s[0] == '-';
    var digits := if s != [] && (s[0] == '-' || s[0] == '+') then s[1..] else s;
    if digits == [] || !Digits(digits) then None
    else
      var v := Value(digits) as int;
      var n := if negative then -v else v;
      if Int32(n) then Some(n) else None
  }

  lemma {:induction false} NatRoundTrip(n: nat)
    ensures Value(NatText(n)) == n
    decreases n
  {
    var s := NatText(n);
    assert s[|s| - 1] == '0' + (n % 10) as char;
    if n >= 10 {
      NatRoundTrip(n / 10);
      assert s[..|s| - 1] == NatText(n / 10);
    } else {
      assert s[..|s| - 1] == [];
    }
  }

  lemma {:induction false} DigitsPlain(s: string)
    requires Digits(s)
    ensures ' ' !in s && ',' !in s && '-' !in s && '+' !in s
  {
  }

  lemma {:induction false} ParseDigits(s: string)
    requires s != [] && Digits(s)
    ensures ParseInt(s) == if Int32(Value(s)) then Some(Value(s)) else None
    ensures ParseInt("+" + s) == ParseInt(s)
  {
    assert Digit(s[0]);
    assert ("+" + s)[1..] == s;
  }

  lemma {:induction false} ParseNegative(s: string, n: int)
    requires s != [] && Digits(s) && n == Value(s)
    ensures ParseInt(['-'] + s) == if Int32(-n) then Some(-n) else None
  {
    assert (['-'] + s)[1..] == s;
  }

  /** A number written in decimal reads back exactly when it has 32 bits; a plus sign makes no difference. */
  lemma {:induction false} IntRoundTrip(n: int)
    ensures ParseInt(IntText(n)) == if -2147483648 <= n <= 2147483647 then Some(n) else None
    ensures n >= 0 ==> ParseInt("+" + IntText(n)) == ParseInt(IntText(n))
    ensures ' ' !in IntText(n) && ',' !in IntText(n)
  {
    hide NatText, Value, ParseInt, Digits;
    if n < 0 {
      NatRoundTrip(-n);
      DigitsPlain(NatText(-n));
      ParseNegative(NatText(-n), -n);
    } else {
      NatRoundTrip(n);
      DigitsPlain(NatText(n));
      ParseDigits(NatText(n));
    }
  }

  // ----- text -----

  function RecordText(r: Record): string {
    IntText(r.first) + [' '] + IntText(r.second)
  }

  function RecordsText(data: seq<Record>): string
    requires data != []
    decreases |data|
  {
    if |data| == 1 then RecordText(data[0]) else RecordText(data[0]) + [','] + RecordsText(data[1..])
  }

  lemma {:induction false} HeaderText(header: Record, data: seq<Record>)
    requires data != []
    ensures RecordsText([header] + data) == RecordText(header) + [','] + RecordsText(data)
  {
    assert ([header] + data)[1..] == data;
  }

  lemma {:induction false} NextText(text: string, data: seq<Record>, i: nat)
    requires i < |data|
    ensures text + RecordsText(data[i..])
         == if i + 1 < |data| then text + RecordText(data[i]) + [','] + RecordsText(data[i + 1..])
            else text + RecordText(data[i])
  {
    assert data[i..][1..] == data[i + 1..];
    hide RecordText;
  }

  /** What `write` produces: a header with both versions, then the records. */
  function WriteText(userVersion: int, data: seq<Record>): string
    requires data != []
  {
    if userVersion == 0 then "" else RecordsText([Record(userVersion, FORMAT_VERSION)] + data)
  }

  /** One record of `read`; nothing when a field is missing or not a number. */
  function ReadRecord(line: string): Option<Record> {
    var (a, s) := GetLine(Begin(line), ' ');
    match ParseInt(a)
    case None => None
    case Some(first) =>
      if s.eof then None
      else
        match ParseInt(GetLine(s, ' ').0)
        case None => None
        case Some(second) => Some(Record(first, second))
  }

  /** The records from here on, up to the first one that cannot be read. */
  function ReadRecords(s: Stream): seq<Record>
    requires s.Valid()
    decreases |s.text| - s.pos, if s.eof then 0 else 1
  {
    if s.eof then []
    else
      var (line, rest) := GetLine(s, ',');
      match ReadRecord(line)
      case None => []
      case Some(r) => [r] + ReadRecords(rest)
  }

  /** All records but the header, if the header is the expected one. */
  function ReadText(input: string, userVersion: int): seq<Record> {
    var all := ReadRecords(Begin(input));
    if all == [] || all[0] != Record(userVersion, FORMAT_VERSION) then [] else all[1..]
  }

  /** The loop over the fields of one record. */
  method ReadFields(line: string) returns (record: Option<Record>)
    ensures record == ReadRecord(line)
  {
    var fields := Begin(line);
    var numbers: seq<int> := [];
    ghost var head := GetLine(fields, ' ');
    for i := 0 to 2
      invariant |numbers| == i && fields.Valid()
      invariant i == 0 ==> fields == Begin(line)
      invariant i == 1 ==> fields == head.1 && ParseInt(head.0) == Some(numbers[0])
      invariant i == 2 ==> ReadRecord(line) == Some(Record(numbers[0], numbers[1]))
    {
      if fields.eof {
        return None;
      }
      var field := GetLine(fields, ' ');
      var value := ParseInt(field.0);
      if value.None? {
        return None;
      }
      fields := field.1;
      numbers := numbers + [value.value];
    }
    return Some(Record(numbers[0], numbers[1]));
  }

  class Serializer {
    var userVersion: int

    constructor ()
      ensures userVersion == 0
    {
      userVersion := 0;
    }

    /** `read`. */
    method Read(input: string, version: int) returns (out: seq<Record>)
      modifies this
      ensures userVersion == version && out == ReadText(input, version)
    {
      hide ReadRecord, GetLine;
      userVersion := version;
      out := [];
      var first := true;
      var stream := Begin(input);
      ghost var all := ReadRecords(stream);
      while !stream.eof
        invariant stream.Valid() && userVersion == version
        invariant first ==> out == [] && ReadRecords(stream) == all
        invariant !first ==> all != [] && all[0] == Record(version, FORMAT_VERSION) && all[1..] == out + ReadRecords(stream)
        decreases |stream.text| - stream.pos, if stream.eof then 0 else 1
      {
        var next := GetLine(stream, ',');
        var fields := ReadFields(next.0);
        if fields.None? {
          return;
        }
        var record := fields.value;
        if first {
          if record.first != userVersion || record.second != FORMAT_VERSION {
            return [];
          }
          first := false;
        } else {
          out := out + [record];
        }
        stream := next.1;
      }
    }

    /** `write`; there must be a record. */
    method Write(data: seq<Record>) returns (text: string)
      requires data != []
      ensures text == WriteText(userVersion, data)
    {
      if userVersion == 0 {
        return "";
      }
      hide IntText, RecordsText, RecordText;
      text := RecordText(Record(userVersion, FORMAT_VERSION)) + [','];
      HeaderText(Record(userVersion, FORMAT_VERSION), data);
      var i := 0;
      assert data[0..] == data;
      while true
        invariant i < |data|
        invariant text + RecordsText(data[i..]) == WriteText(userVersion, data)
        decreases |data| - i
      {
        NextText(text, data, i);
        text := text + RecordText(data[i]);
        i := i + 1;
        if i == |data| {
          break;
        }
        text := text + [','];
      }
    }
  }

  // ----- round trip -----

  lemma {:induction false} RecordRoundTrip(r: Record)
    requires Fits(r)
    ensures ReadRecord(RecordText(r)) == Some(r) && ',' !in RecordText(r)
  {
    hide IntText, ParseInt, GetLine;
    IntRoundTrip(r.first);
    IntRoundTrip(r.second);
    var s := Begin(RecordText(r));
    assert s.text[0..] == IntText(r.first) + [' '] + IntText(r.second);
    GetField(s, ' ', IntText(r.first), IntText(r.second));
    GetLast(GetLine(s, ' ').1, ' ', IntText(r.second));
  }

  lemma {:induction false} ReadStep(s: Stream, r: Record)
    requires s.Valid() && !s.eof && GetLine(s, ',').0 == RecordText(r) && Fits(r)
    ensures ReadRecords(s) == [r] + ReadRecords(GetLine(s, ',').1)
    ensures GetLine(s, ',').1.eof ==> ReadRecords(s) == [r]
  {
    RecordRoundTrip(r);
    hide ReadRecord, RecordText, GetLine;
  }

  lemma {:induction false} LastRecord(s: Stream, r: Record)
    requires s.Valid() && !s.eof && Fits(r) && s.text[s.pos..] == RecordText(r)
    ensures ReadRecords(s) == [r]
  {
    hide RecordText, GetLine, ReadRecords, Fits;
    assert ',' !in RecordText(r) by {
      RecordRoundTrip(r);
    }
    GetLast(s, ',', RecordText(r));
    ReadStep(s, r);
  }

  lemma {:induction false} NextRecord(s: Stream, r: Record, rest: string) returns (next: Stream)
    requires s.Valid() && !s.eof && Fits(r) && s.text[s.pos..] == RecordText(r) + [','] + rest
    ensures next.Valid() && !next.eof && next.text[next.pos..] == rest
    ensures ReadRecords(s) == [r] + ReadRecords(next)
  {
    hide RecordText, GetLine, ReadRecords, Fits;
    assert ',' !in RecordText(r) by {
      RecordRoundTrip(r);
    }
    GetField(s, ',', RecordText(r), rest);
    ReadStep(s, r);
    next := GetLine(s, ',').1;
  }

  lemma {:induction false} RecordsRoundTrip(s: Stream, data: seq<Record>)
    requires s.Valid() && !s.eof && data != [] && forall r <- data :: Fits(r)
    requires s.text[s.pos..] == RecordsText(data)
    ensures ReadRecords(s) == data
    decreases |data|
  {
    hide RecordText, ReadRecords, Fits;
    if |data| == 1 {
      LastRecord(s, data[0]);
    } else {
      var next := NextRecord(s, data[0], RecordsText(data[1..]));
      RecordsRoundTrip(next, data[1..]);
    }
  }

  /** What was written reads back under the version it was written with, and as nothing under any other. */
  lemma {:induction false} RoundTrip(userVersion: int, version: int, data: seq<Record>)
    requires data != [] && userVersion != 0 && Int32(userVersion) && forall r <- data :: Fits(r)
    ensures ReadText(WriteText(userVersion, data), version) == if version == userVersion then data else []
    ensures WriteText(0, data) == ""
  {
    var all := [Record(userVersion, FORMAT_VERSION)] + data;
    var s := Begin(WriteText(userVersion, data));
    assert s.text[0..] == RecordsText(all);
    RecordsRoundTrip(s, all);
    assert all[1..] == data;
  }

  lemma {:induction false} ReadRecordsFit(s: Stream)
    requires s.Valid()
    ensures forall r <- ReadRecords(s) :: Fits(r)
    decreases |s.text| - s.pos, if s.eof then 0 else 1
  {
    if !s.eof {
      ReadRecordsFit(GetLine(s, ',').1);
    }
  }

  /** Whatever the text, writing what was read from it and reading that gives the same records. */
  lemma {:induction false} ReadIsStable(input: string, userVersion: int)
    requires userVersion != 0 && Int32(userVersion) && ReadText(input, userVersion) != []
    ensures var data := ReadText(input, userVersion); ReadText(WriteText(userVersion, data), userVersion) == data
  {
    ReadRecordsFit(Begin(input));
    RoundTrip(userVersion, userVersion, ReadText(input, userVersion));
  }
}
