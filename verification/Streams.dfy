/** Text streams as the C++ library reads them line by line. */
module Streams {
  /** Reads past the end are marked, as `eof()` tells. */
  datatype Stream = Stream(text: string, pos: nat, eof: bool)
  {
    predicate Valid() { pos <= |text| }
  }

  function Begin(text: string): (s: Stream)
    ensures s.Valid()
  {
    Stream(text, 0, false)
  }

  /** The first delimiter from a position on, or the end. */
  function Find(text: string, delimiter: char, from: nat): (i: nat)
    requires from <= |text|
    ensures from <= i <= |text| && delimiter !in text[from..i]
    ensures i < |text| ==> text[i] == delimiter
    decreases |text| - from
  {
    if from == |text| || text[from] == delimiter then from
    else
      var i := Find(text, delimiter, from + 1);
      assert text[from..i] == [text[from]] + text[from + 1..i];
      i
  }

  /** `getline`: up to the delimiter, which is dropped; nothing once the end was hit. */
  function GetLine(s: Stream, delimiter: char): (r: (string, Stream))
    requires s.Valid()
    ensures r.1.Valid() && r.1.text == s.text && r.1.pos >= s.pos
    ensures !s.eof && !r.1.eof ==> r.1.pos > s.pos
  {
    if s.eof then ("", s)
    else
      var i := Find(s.text, delimiter, s.pos);
      if i == |s.text| then (s.text[s.pos..], Stream(s.text, i, true))
      else (s.text[s.pos..i], Stream(s.text, i + 1, false))
  }

  lemma {:induction false} FindIs(text: string, delimiter: char, from: nat, i: nat)
    requires from <= i <= |text| && delimiter !in text[from..i]
    requires i < |text| ==> text[i] == delimiter
    ensures Find(text, delimiter, from) == i
    decreases i - from
  {
    if from < i {
      assert text[from..i] == [text[from]] + text[from + 1..i];
      FindIs(text, delimiter, from + 1, i);
    }
  }

  /** A field without the delimiter comes back whole. */
  lemma {:induction false} GetField(s: Stream, delimiter: char, field: string, rest: string)
    requires s.Valid() && !s.eof && delimiter !in field
    requires s.text[s.pos..] == field + [delimiter] + rest
    ensures GetLine(s, delimiter) == (field, Stream(s.text, s.pos + |field| + 1, false))
    ensures s.text[s.pos + |field| + 1..] == rest
  {
    var i := s.pos + |field|;
    assert s.text[s.pos..i] == s.text[s.pos..][..|field|] == field;
    assert s.text[i] == s.text[s.pos..][|field|] == delimiter;
    assert s.text[i + 1..] == s.text[s.pos..][|field| + 1..] == rest;
    FindIs(s.text, delimiter, s.pos, i);
  }

  lemma {:induction false} GetLast(s: Stream, delimiter: char, field: string)
    requires s.Valid() && !s.eof && delimiter !in field && s.text[s.pos..] == field
    ensures GetLine(s, delimiter) == (field, Stream(s.text, |s.text|, true))
  {
    assert s.text[s.pos..|s.text|] == field;
    FindIs(s.text, delimiter, s.pos, |s.text|);
  }
}
