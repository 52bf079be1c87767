/** The comma-separated-values dialect with backslash escapes, read line by line. */
module Csv {

  datatype State = Begin | Quoted | QuotedEscaped | Unquoted | UnquotedEscaped | End

  type Mode = s: State | s != Begin && s != End witness Unquoted

  predicate LineEnd(c: char) {
    c == '\n' || c == '\r'
  }

  function NextMode(mode: Mode, c: char): Mode {
    match mode
    case Unquoted => if c == '"' then Quoted else if c == '\\' then UnquotedEscaped else Unquoted
    case UnquotedEscaped => Unquoted
    case Quoted => if c == '"' then Unquoted else if c == '\\' then QuotedEscaped else Quoted
    case QuotedEscaped => Quoted
  }

  /** The fields of the first line of s. The first of them continues the field being read. */
  function Tokens(s: string, mode: Mode, delimiter: char): (r: seq<string>)
    ensures |r| > 0
  {
    if s == "" then [""]
    else
      var c := s[0];
      if mode == Unquoted && c != '"' && c != '\\' && c == delimiter then [""] + Tokens(s[1..], Unquoted, delimiter)
      else if mode == Unquoted && LineEnd(c) then [""]
      else
        var rest := Tokens(s[1..], NextMode(mode, c), delimiter);
        if (mode == Unquoted || mode == Quoted) && c == '"' then rest else Prefixed([c], rest)
  }

  /** The number of characters of the first line of s, its line end included */
  function LineLength(s: string, mode: Mode, delimiter: char): (n: nat)
    ensures n <= |s|
    ensures s != "" ==> n > 0
  {
    if s == "" then 0
    else if mode == Unquoted && s[0] != delimiter && LineEnd(s[0]) then 1
    else 1 + LineLength(s[1..], NextMode(mode, s[0]), delimiter)
  }

  function Prefixed(p: string, fields: seq<string>): (r: seq<string>)
    requires |fields| > 0
    ensures |r| == |fields|
  {
    [p + fields[0]] + fields[1..]
  }

  /** data with the fields that continue its last one */
  function Glued(data: seq<string>, fields: seq<string>): (r: seq<string>)
    requires |data| > 0 && |fields| > 0
  {
    data[..|data|-1] + Prefixed(data[|data|-1], fields)
  }

  /** What one call leaves of s: a line feed right after the line is consumed too. */
  function Remainder(s: string, delimiter: char): string {
    var n := LineLength(s, Unquoted, delimiter);
    if n < |s| && s[n] == '\n' then s[n+1..] else s[n..]
  }

  class CsvStream {
    const input: string
    const delimiter: char
    var position: nat
    var failed: bool

    ghost predicate Valid()
      reads this
    {
      position <= |input| && (failed ==> position == |input|)
    }

    constructor (input: string, delimiter: char)
      ensures Valid() && this.input == input && this.delimiter == delimiter && position == 0 && !failed
    {
      this.input, this.delimiter := input, delimiter;
      position, failed := 0, false;
    }

    /** Reads one line. False means that there was nothing left to read. */
    method ReadCsvLine() returns (ok: bool, data: seq<string>)
      requires Valid()
      modifies this
      ensures Valid() && ok == (old(position) < |input|) && failed == !ok
      ensures data == Tokens(input[old(position)..], Unquoted, delimiter)
      ensures input[position..] == Remainder(input[old(position)..], delimiter)
    {
      hide Reading, Tokens, LineLength, Remainder, Append;
      ghost var start := position;
      ghost var all := input[start..];
      data := [""];
      var state := Begin;
      ReadingStarts(all, delimiter);
      while true
        invariant Valid() && start <= position && |data| > 0
        invariant state == Begin ==> position == start
        invariant state != Begin ==> position > start && !failed
        invariant Reading(all, position - start, state, data, delimiter)
        decreases |input| - position
      {
        if failed || position == |input| {
          ReadingEnds(all, |all|, state, data, delimiter);
          failed := true;
          break;
        }
        var c := input[position];
        position := position + 1;
        if state == End {
          ReadingEnds(all, position - 1 - start, state, data, delimiter);
          if c != '\n' {
            position := position - 1;
          }
          break;
        }
        ReadingStep(all, position - 1 - start, state, data, delimiter);
        if state == Begin {
          state := Unquoted;
        }
        match state {
          case Unquoted =>
            if c == '"' {
              state := Quoted;
            } else if c == '\\' {
              state := UnquotedEscaped;
              data := Append(data, c);
            } else if c == delimiter {
              data := data + [""];
            } else if LineEnd(c) {
              state := End;
            } else {
              data := Append(data, c);
            }
          case UnquotedEscaped =>
            data := Append(data, c);
            state := Unquoted;
          case Quoted =>
            if c == '"' {
              state := Unquoted;
            } else if c == '\\' {
              state := QuotedEscaped;
              data := Append(data, c);
            } else {
              data := Append(data, c);
            }
          case QuotedEscaped =>
            data := Append(data, c);
            state := Quoted;
        }
      }
      if state != Begin {
        failed := false;
      }
      ok := !failed;
    }
  }

  /** Where the loop is: n characters of all are consumed. */
  ghost predicate Reading(all: string, n: nat, state: State, data: seq<string>, delimiter: char) {
    && n <= |all| && |data| > 0
    && (state == Begin ==> n == 0 && data == [""])
    && (state == End ==>
          Tokens(all, Unquoted, delimiter) == data && LineLength(all, Unquoted, delimiter) == n)
    && (state != End ==>
          var mode: Mode := if state == Begin then Unquoted else state;
          && Tokens(all, Unquoted, delimiter) == Glued(data, Tokens(all[n..], mode, delimiter))
          && LineLength(all, Unquoted, delimiter) == n + LineLength(all[n..], mode, delimiter))
  }

  function StateAfter(state: State, c: char, delimiter: char): State
    requires state != End
  {
    match state
    case UnquotedEscaped => Unquoted
    case Quoted => if c == '"' then Unquoted else if c == '\\' then QuotedEscaped else Quoted
    case QuotedEscaped => Quoted
    case _ =>
      if c == '"' then Quoted
      else if c == '\\' then UnquotedEscaped
      else if c == delimiter then Unquoted
      else if LineEnd(c) then End
      else Unquoted
  }

  function DataAfter(data: seq<string>, state: State, c: char, delimiter: char): seq<string>
    requires |data| > 0
  {
    if state == Quoted then if c == '"' then data else Append(data, c)
    else if state == Unquoted || state == Begin then
      if c == '"' then data
      else if c == '\\' then Append(data, c)
      else if c == delimiter then data + [""]
      else if LineEnd(c) then data
      else Append(data, c)
    else Append(data, c)
  }

  lemma ReadingStarts(all: string, delimiter: char)
    ensures Reading(all, 0, Begin, [""], delimiter)
  {
    GlueEmpty(Tokens(all, Unquoted, delimiter));
    assert all[0..] == all;
  }

  lemma ReadingStep(all: string, n: nat, state: State, data: seq<string>, delimiter: char)
    requires n < |all| && state != End && Reading(all, n, state, data, delimiter)
    ensures Reading(all, n + 1, StateAfter(state, all[n], delimiter), DataAfter(data, state, all[n], delimiter),
        delimiter)
  {
    hide Tokens, Glued, Append;
    var mode: Mode := if state == Begin then Unquoted else state;
    var rest := all[n..];
    assert rest[1..] == all[n+1..];
    GlueStep(data, rest, mode, delimiter);
  }

  lemma ReadingEnds(all: string, n: nat, state: State, data: seq<string>, delimiter: char)
    requires Reading(all, n, state, data, delimiter) && (n == |all| || state == End)
    ensures data == Tokens(all, Unquoted, delimiter)
    ensures Remainder(all, delimiter) == if n < |all| && all[n] == '\n' then all[n+1..] else all[n..]
  {
    if state != End {
      assert all[n..] == "";
      GlueNothing(data);
    }
  }

  function Append(data: seq<string>, c: char): (r: seq<string>)
    requires |data| > 0
    ensures |r| == |data|
  {
    data[|data|-1 := data[|data|-1] + [c]]
  }

  lemma GlueEmpty(fields: seq<string>)
    requires |fields| > 0
    ensures Glued([""], fields) == fields
  {
    assert "" + fields[0] == fields[0];
  }

  /** One character moves from what is to be read to what has been read. */
  lemma GlueStep(data: seq<string>, s: string, mode: Mode, delimiter: char)
    requires |data| > 0 && s != ""
    ensures var c, fields := s[0], Tokens(s, mode, delimiter);
            if mode == Unquoted && c != '"' && c != '\\' && c == delimiter then
              Glued(data, fields) == Glued(data + [""], Tokens(s[1..], Unquoted, delimiter))
            else if mode == Unquoted && LineEnd(c) then
              Glued(data, fields) == data
            else if (mode == Unquoted || mode == Quoted) && c == '"' then
              Glued(data, fields) == Glued(data, Tokens(s[1..], NextMode(mode, c), delimiter))
            else
              Glued(data, fields) == Glued(Append(data, c), Tokens(s[1..], NextMode(mode, c), delimiter))
  {
    hide Glued, Append;
    var c := s[0];
    if mode == Unquoted && c != '"' && c != '\\' && c == delimiter {
      GlueField(data, Tokens(s[1..], Unquoted, delimiter));
    } else if mode == Unquoted && LineEnd(c) {
      GlueNothing(data);
    } else if (mode == Unquoted || mode == Quoted) && c == '"' {
    } else {
      GlueCharacter(data, c, Tokens(s[1..], NextMode(mode, c), delimiter));
    }
  }

  lemma GlueNothing(data: seq<string>)
    requires |data| > 0
    ensures Glued(data, [""]) == data
  {
    assert data[|data|-1] + "" == data[|data|-1];
  }

  lemma GlueField(data: seq<string>, rest: seq<string>)
    requires |data| > 0 && |rest| > 0
    ensures Glued(data, [""] + rest) == Glued(data + [""], rest)
  {
    var k := |data| - 1;
    assert ([""] + rest)[1..] == rest && data[k] + "" == data[k] && data == data[..k] + [data[k]];
    GlueEmpty(rest);
    assert "" + rest[0] == rest[0];
  }

  lemma GlueCharacter(data: seq<string>, c: char, rest: seq<string>)
    requires |data| > 0 && |rest| > 0
    ensures Glued(data, Prefixed([c], rest)) == Glued(Append(data, c), rest)
  {
    var k := |data| - 1;
    assert data[k] + ([c] + rest[0]) == (data[k] + [c]) + rest[0];
    assert Prefixed([c], rest)[1..] == rest[1..];
    assert Append(data, c)[..k] == data[..k];
  }

  // ----- how much of the stream a call consumes

  /** The mode in which character i of s is read */
  function ModeAt(s: string, mode: Mode, i: nat): Mode
    requires i <= |s|
  {
    if i == 0 then mode else ModeAt(s[1..], NextMode(mode, s[0]), i - 1)
  }

  /** Character i ends the line that is read in these modes. */
  predicate StopsAt(s: string, mode: Mode, delimiter: char, i: nat)
    requires i < |s|
  {
    ModeAt(s, mode, i) == Unquoted && s[i] != delimiter && LineEnd(s[i])
  }

  /** What holds of a line from its second character on holds of all of it, when it does
      not end at the first. */
  lemma LineStopShifts(s: string, mode: Mode, delimiter: char)
    requires s != "" && !StopsAt(s, mode, delimiter, 0)
    requires var rest, next := s[1..], NextMode(mode, s[0]);
             && LineLength(s, mode, delimiter) == 1 + LineLength(rest, next, delimiter)
             && (forall i :: 0 < i < |s| ==>
                   (StopsAt(s, mode, delimiter, i) <==> StopsAt(rest, next, delimiter, i - 1)))
             && FirstStop(rest, next, delimiter, LineLength(rest, next, delimiter))
    ensures FirstStop(s, mode, delimiter, LineLength(s, mode, delimiter))
  {
    hide StopsAt, LineLength, NextMode;
    var rest, next, n := s[1..], NextMode(mode, s[0]), LineLength(s, mode, delimiter);
    if j :| 0 <= j < |s| && StopsAt(s, mode, delimiter, j) {
      assert StopsAt(rest, next, delimiter, j - 1);
      assert StopsAt(s, mode, delimiter, n - 1);
      forall i | 0 <= i < n - 1
        ensures !StopsAt(s, mode, delimiter, i)
      {
        if i > 0 {
          assert !StopsAt(rest, next, delimiter, i - 1);
        }
      }
    } else {
      forall i | 0 <= i < |rest|
        ensures !StopsAt(rest, next, delimiter, i)
      {
        assert !StopsAt(s, mode, delimiter, i + 1);
      }
    }
  }

  /** n characters reach through the first line end, or else to the end of s. */
  ghost predicate FirstStop(s: string, mode: Mode, delimiter: char, n: nat)
    requires n <= |s|
  {
    if exists i :: 0 <= i < |s| && StopsAt(s, mode, delimiter, i) then
      n > 0 && StopsAt(s, mode, delimiter, n - 1) && forall i :: 0 <= i < n - 1 ==> !StopsAt(s, mode, delimiter, i)
    else n == |s|
  }

  lemma {:induction false} LineStopsFirst(s: string, mode: Mode, delimiter: char)
    ensures FirstStop(s, mode, delimiter, LineLength(s, mode, delimiter))
  {
    if s == "" {
    } else {
      var next, n := NextMode(mode, s[0]), LineLength(s, mode, delimiter);
      if StopsAt(s, mode, delimiter, 0) {
        assert n == 1;
      } else {
        assert n == 1 + LineLength(s[1..], next, delimiter);
        LineStopsFirst(s[1..], next, delimiter);
        forall i | 0 < i < |s|
          ensures StopsAt(s, mode, delimiter, i) <==> StopsAt(s[1..], next, delimiter, i - 1)
        {
        }
        hide StopsAt, LineLength;
        LineStopShifts(s, mode, delimiter);
      }
    }
  }

  /** The number of backslashes right before position i */
  function Backslashes(s: string, i: nat): nat
    requires i <= |s|
  {
    if i > 0 && s[i-1] == '\\' then 1 + Backslashes(s, i - 1) else 0
  }

  predicate IsEscaped(s: string, i: nat)
    requires i <= |s|
  {
    Backslashes(s, i) % 2 == 1
  }

  /** The number of quotes before position i that are not escaped */
  function Quotes(s: string, i: nat): nat
    requires i <= |s|
  {
    if i == 0 then 0 else Quotes(s, i - 1) + if s[i-1] == '"' && !IsEscaped(s, i - 1) then 1 else 0
  }

  /** Character i is a line feed or a carriage return, not escaped, after an even number of
      quotes. */
  predicate EndsAt(s: string, delimiter: char, i: nat)
    requires i < |s|
  {
    (s[i] == '\n' || s[i] == '\r') && s[i] != delimiter && !IsEscaped(s, i) && Quotes(s, i) % 2 == 0
  }

  lemma {:induction false} ModeAtNext(s: string, mode: Mode, i: nat)
    requires i < |s|
    ensures ModeAt(s, mode, i + 1) == NextMode(ModeAt(s, mode, i), s[i])
  {
    if i == 0 {
      assert ModeAt(s, mode, 1) == ModeAt(s[1..], NextMode(mode, s[0]), 0);
    } else {
      ModeAtNext(s[1..], NextMode(mode, s[0]), i - 1);
    }
  }

  /** The mode counts quotes and backslashes. */
  lemma {:induction false} ModeCounts(s: string, i: nat)
    requires i <= |s|
    ensures ModeAt(s, Unquoted, i)
         == if Quotes(s, i) % 2 == 0 then if IsEscaped(s, i) then UnquotedEscaped else Unquoted
            else if IsEscaped(s, i) then QuotedEscaped else Quoted
  {
    if i == 0 {
    } else {
      ModeCounts(s, i - 1);
      ModeAtNext(s, Unquoted, i - 1);
    }
  }

  /** n characters reach through the first line end, or else to the end of s. */
  ghost predicate FirstEnd(s: string, delimiter: char, n: nat)
    requires n <= |s|
  {
    if exists i :: 0 <= i < |s| && EndsAt(s, delimiter, i) then
      n > 0 && EndsAt(s, delimiter, n - 1) && forall i :: 0 <= i < n - 1 ==> !EndsAt(s, delimiter, i)
    else n == |s|
  }

  /** A line reaches through the first unquoted, unescaped line end, or else to the end
      of the stream. */
  lemma LineEndIsFirst(s: string, delimiter: char)
    ensures FirstEnd(s, delimiter, LineLength(s, Unquoted, delimiter))
  {
    hide LineLength, ModeAt, Quotes, IsEscaped;
    LineStopsFirst(s, Unquoted, delimiter);
    forall i | 0 <= i < |s|
      ensures StopsAt(s, Unquoted, delimiter, i) <==> EndsAt(s, delimiter, i)
    {
      ModeCounts(s, i);
    }
    hide StopsAt, EndsAt;
  }

  // ----- round trip

  /** Every quote is escaped by a backslash and no backslash dangles. */
  predicate Escaped(field: string) {
    if field == "" then true
    else if field[0] == '"' then false
    else if field[0] == '\\' then |field| > 1 && Escaped(field[2..])
    else Escaped(field[1..])
  }

  predicate EscapedRow(row: seq<string>) {
    forall i :: 0 <= i < |row| ==> Escaped(row[i])
  }

  predicate DelimiterOk(delimiter: char) {
    delimiter != '"' && delimiter != '\\' && delimiter != '\n' && delimiter != '\r'
  }

  function Written(row: seq<string>, delimiter: char): string
    requires |row| > 0
  {
    if |row| == 1 then "\"" + row[0] + "\"\n"
    else "\"" + row[0] + "\"" + [delimiter] + Written(row[1..], delimiter)
  }

  predicate AllNonempty(rows: seq<seq<string>>) {
    forall i :: 0 <= i < |rows| ==> |rows[i]| > 0
  }

  function WrittenAll(rows: seq<seq<string>>, delimiter: char): string
    requires AllNonempty(rows)
  {
    if |rows| == 0 then "" else Written(rows[0], delimiter) + WrittenAll(rows[1..], delimiter)
  }

  lemma RemainderShorter(s: string, delimiter: char)
    requires s != ""
    ensures |Remainder(s, delimiter)| < |s|
  {}

  /** The rows of the calls that return true, the first that returns false ending it */
  function ReadAll(s: string, delimiter: char): seq<seq<string>>
    decreases |s|
  {
    if s == "" then []
    else
      RemainderShorter(s, delimiter);
      [Tokens(s, Unquoted, delimiter)] + ReadAll(Remainder(s, delimiter), delimiter)
  }

  lemma KeptCharacter(s: string, mode: Mode, rest: string, delimiter: char)
    requires s != "" && s[1..] == rest && mode != Unquoted && !(mode == Quoted && s[0] == '"')
    ensures Tokens(s, mode, delimiter) == Prefixed([s[0]], Tokens(rest, NextMode(mode, s[0]), delimiter))
    ensures LineLength(s, mode, delimiter) == 1 + LineLength(rest, NextMode(mode, s[0]), delimiter)
  {}

  lemma ClosingQuote(s: string, tail: string, delimiter: char)
    requires s == "\"" + tail
    ensures Tokens(s, Quoted, delimiter) == Tokens(tail, Unquoted, delimiter)
    ensures LineLength(s, Quoted, delimiter) == 1 + LineLength(tail, Unquoted, delimiter)
  {
    assert s[1..] == tail;
  }

  lemma OpeningQuote(s: string, tail: string, delimiter: char)
    requires s == "\"" + tail && DelimiterOk(delimiter)
    ensures Tokens(s, Unquoted, delimiter) == Tokens(tail, Quoted, delimiter)
    ensures LineLength(s, Unquoted, delimiter) == 1 + LineLength(tail, Quoted, delimiter)
  {
    assert s[1..] == tail;
  }

  /** An escaped field is read back up to its closing quote. */
  lemma {:induction false} QuotedField(field: string, tail: string, delimiter: char)
    requires Escaped(field)
    ensures Tokens(field + "\"" + tail, Quoted, delimiter) == Prefixed(field, Tokens(tail, Unquoted, delimiter))
    ensures LineLength(field + "\"" + tail, Quoted, delimiter) == |field| + 1 + LineLength(tail, Unquoted, delimiter)
    decreases |field|
  {
    hide Tokens, LineLength;
    var s, fields := field + "\"" + tail, Tokens(tail, Unquoted, delimiter);
    if field == "" {
      ClosingQuote(s, tail, delimiter);
      assert "" + fields[0] == fields[0];
    } else if field[0] == '\\' {
      var rest := field[2..] + "\"" + tail;
      assert s[1..] == [field[1]] + rest;
      KeptCharacter(s, Quoted, [field[1]] + rest, delimiter);
      KeptCharacter([field[1]] + rest, QuotedEscaped, rest, delimiter);
      QuotedField(field[2..], tail, delimiter);
      assert field == [field[0]] + ([field[1]] + field[2..]);
      PrefixedTwice([field[1]], field[2..], fields);
      PrefixedTwice([field[0]], [field[1]] + field[2..], fields);
    } else {
      KeptCharacter(s, Quoted, field[1..] + "\"" + tail, delimiter);
      QuotedField(field[1..], tail, delimiter);
      assert field == [field[0]] + field[1..];
      PrefixedTwice([field[0]], field[1..], fields);
    }
  }

  lemma PrefixedTwice(p: string, r: string, fields: seq<string>)
    requires |fields| > 0
    ensures Prefixed(p, Prefixed(r, fields)) == Prefixed(p + r, fields)
  {
    assert p + (r + fields[0]) == (p + r) + fields[0];
  }

  /** In unquoted text no quote is kept unless a backslash is kept before it. */
  lemma {:induction false} NoLeadingQuote(s: string, mode: Mode, delimiter: char)
    requires mode == Unquoted || mode == Quoted
    ensures var first := Tokens(s, mode, delimiter)[0]; first == "" || first[0] != '"'
  {
    if s != "" && s[0] == '"' {
      NoLeadingQuote(s[1..], NextMode(mode, s[0]), delimiter);
    }
  }

  /** A field that is not escaped is never read back. */
  lemma {:induction false} BadField(field: string, tail: string, delimiter: char)
    requires !Escaped(field)
    ensures Tokens(field + "\"" + tail, Quoted, delimiter)[0] != field
    decreases |field|
  {
    hide Tokens, LineLength;
    var s := field + "\"" + tail;
    var t := Tokens(s, Quoted, delimiter)[0];
    if field[0] == '"' {
      NoLeadingQuote(s, Quoted, delimiter);
    } else if |field| == 1 {
      KeptCharacter(s, Quoted, "\"" + tail, delimiter);
      KeptCharacter("\"" + tail, QuotedEscaped, tail, delimiter);
      assert |t| >= 2;
    } else if field[0] == '\\' {
      var rest := field[2..] + "\"" + tail;
      assert s[1..] == [field[1]] + rest;
      KeptCharacter(s, Quoted, [field[1]] + rest, delimiter);
      KeptCharacter([field[1]] + rest, QuotedEscaped, rest, delimiter);
      BadField(field[2..], tail, delimiter);
      assert t[2..] == Tokens(rest, Quoted, delimiter)[0];
    } else {
      KeptCharacter(s, Quoted, field[1..] + "\"" + tail, delimiter);
      BadField(field[1..], tail, delimiter);
      assert t[1..] == Tokens(field[1..] + "\"" + tail, Quoted, delimiter)[0];
    }
  }

  /** What follows the closing quote of the first field of a written row */
  function Following(row: seq<string>, tail: string, delimiter: char): string
    requires |row| > 0
  {
    if |row| == 1 then "\n" + tail else [delimiter] + (Written(row[1..], delimiter) + tail)
  }

  lemma FollowingRead(row: seq<string>, tail: string, delimiter: char)
    requires |row| > 0 && DelimiterOk(delimiter)
    ensures Written(row, delimiter) + tail == "\"" + (row[0] + "\"" + Following(row, tail, delimiter))
    ensures var rest := Following(row, tail, delimiter);
            if |row| == 1 then
              Tokens(rest, Unquoted, delimiter) == [""] && LineLength(rest, Unquoted, delimiter) == 1
            else
              var next := Written(row[1..], delimiter) + tail;
              && Tokens(rest, Unquoted, delimiter) == [""] + Tokens(next, Unquoted, delimiter)
              && LineLength(rest, Unquoted, delimiter) == 1 + LineLength(next, Unquoted, delimiter)
  {
    var rest := Following(row, tail, delimiter);
    if |row| > 1 {
      assert rest[1..] == Written(row[1..], delimiter) + tail;
    }
  }

  lemma {:induction false} WrittenIsRead(row: seq<string>, tail: string, delimiter: char)
    requires |row| > 0 && DelimiterOk(delimiter) && EscapedRow(row)
    ensures Tokens(Written(row, delimiter) + tail, Unquoted, delimiter) == row
    ensures LineLength(Written(row, delimiter) + tail, Unquoted, delimiter) == |Written(row, delimiter)|
  {
    hide Tokens, LineLength, Escaped, Following;
    var rest := Following(row, tail, delimiter);
    FollowingRead(row, tail, delimiter);
    OpeningQuote(Written(row, delimiter) + tail, row[0] + "\"" + rest, delimiter);
    QuotedField(row[0], rest, delimiter);
    assert row[0] + "" == row[0];
    if |row| > 1 {
      WrittenIsRead(row[1..], tail, delimiter);
      assert row == [row[0]] + row[1..];
      assert ([""] + row[1..])[1..] == row[1..];
    }
  }

  lemma {:induction false} BadRow(row: seq<string>, tail: string, delimiter: char)
    requires |row| > 0 && DelimiterOk(delimiter) && !EscapedRow(row)
    ensures Tokens(Written(row, delimiter) + tail, Unquoted, delimiter) != row
  {
    hide Tokens, LineLength, Escaped, Following;
    var rest := Following(row, tail, delimiter);
    FollowingRead(row, tail, delimiter);
    OpeningQuote(Written(row, delimiter) + tail, row[0] + "\"" + rest, delimiter);
    if Escaped(row[0]) {
      QuotedField(row[0], rest, delimiter);
      assert |row| > 1;
      assert !EscapedRow(row[1..]);
      BadRow(row[1..], tail, delimiter);
      var next := Tokens(Written(row[1..], delimiter) + tail, Unquoted, delimiter);
      assert ([""] + next)[1..] == next;
      assert Tokens(Written(row, delimiter) + tail, Unquoted, delimiter)[1..] == next;
    } else {
      BadField(row[0], rest, delimiter);
    }
  }

  lemma WrittenStartsQuoted(rows: seq<seq<string>>, delimiter: char)
    requires AllNonempty(rows) && |rows| > 0
    ensures WrittenAll(rows, delimiter) != "" && WrittenAll(rows, delimiter)[0] == '"'
  {}

  /** What is written is read back, row by row, if and only if every field is escaped. */
  lemma {:induction false} RoundTrip(rows: seq<seq<string>>, delimiter: char)
    requires AllNonempty(rows) && DelimiterOk(delimiter)
    ensures ReadAll(WrittenAll(rows, delimiter), delimiter) == rows
       <==> forall i :: 0 <= i < |rows| ==> EscapedRow(rows[i])
  {
    if |rows| == 0 {
    } else {
      var row, tail := rows[0], WrittenAll(rows[1..], delimiter);
      var s := WrittenAll(rows, delimiter);
      WrittenStartsQuoted(rows, delimiter);
      assert rows == [row] + rows[1..];
      if EscapedRow(row) {
        WrittenIsRead(row, tail, delimiter);
        if |rows| > 1 {
          WrittenStartsQuoted(rows[1..], delimiter);
        }
        assert Remainder(s, delimiter) == tail;
        RoundTrip(rows[1..], delimiter);
        assert ReadAll(s, delimiter)[1..] == ReadAll(tail, delimiter);
      } else {
        BadRow(row, tail, delimiter);
        assert ReadAll(s, delimiter)[0] != row;
      }
    }
  }

  // ----- everything that can be written

  /** A piece of a field, bare or between quotes */
  datatype Part = Bare(text: string) | Enclosed(text: string)

  datatype Ending = LineFeed | CarriageReturn | Both | EndOfStream

  datatype Line = Line(row: seq<seq<Part>>, ending: Ending)

  /** Quotes, delimiters and line ends are escaped by a backslash, and none dangles. */
  predicate BareOk(text: string, delimiter: char) {
    if text == "" then true
    else if text[0] == '\\' then |text| > 1 && BareOk(text[2..], delimiter)
    else
      && text[0] != '"' && text[0] != delimiter && text[0] != '\n' && text[0] != '\r'
      && BareOk(text[1..], delimiter)
  }

  predicate PartOk(part: Part, delimiter: char) {
    match part
    case Bare(text) => BareOk(text, delimiter)
    case Enclosed(text) => Escaped(text)
  }

  predicate FieldOk(field: seq<Part>, delimiter: char) {
    forall i :: 0 <= i < |field| ==> PartOk(field[i], delimiter)
  }

  predicate RowOk(row: seq<seq<Part>>, delimiter: char) {
    |row| > 0 && forall i :: 0 <= i < |row| ==> FieldOk(row[i], delimiter)
  }

  /** Only the last line may go without a line end. */
  predicate LinesOk(lines: seq<Line>, delimiter: char) {
    && (forall i :: 0 <= i < |lines| ==> RowOk(lines[i].row, delimiter))
    && (forall i :: 0 <= i < |lines| - 1 ==> lines[i].ending != EndOfStream)
  }

  function PartWritten(part: Part): string {
    match part
    case Bare(text) => text
    case Enclosed(text) => "\"" + text + "\""
  }

  function FieldWritten(field: seq<Part>): string {
    if field == [] then "" else PartWritten(field[0]) + FieldWritten(field[1..])
  }

  function RowWritten(row: seq<seq<Part>>, delimiter: char): string
    requires |row| > 0
  {
    if |row| == 1 then FieldWritten(row[0])
    else FieldWritten(row[0]) + ([delimiter] + RowWritten(row[1..], delimiter))
  }

  function EndWritten(ending: Ending): string {
    match ending
    case LineFeed => "\n"
    case CarriageReturn => "\r"
    case Both => "\r\n"
    case EndOfStream => ""
  }

  function LinesWritten(lines: seq<Line>, delimiter: char): string
    requires forall i :: 0 <= i < |lines| ==> |lines[i].row| > 0
  {
    if lines == [] then ""
    else RowWritten(lines[0].row, delimiter) + (EndWritten(lines[0].ending) + LinesWritten(lines[1..], delimiter))
  }

  /** The text of a field, without its quotes */
  function FieldText(field: seq<Part>): string {
    if field == [] then "" else field[0].text + FieldText(field[1..])
  }

  function RowText(row: seq<seq<Part>>): seq<string> {
    if row == [] then [] else [FieldText(row[0])] + RowText(row[1..])
  }

  /** The line ends in one character. */
  predicate Single(ending: Ending) {
    ending == LineFeed || ending == CarriageReturn
  }

  /** Nothing is read of the line: it is empty and ends with the stream, or in a line feed
      right after a line that ended in one character, which takes it for the second half
      of its own line end. */
  predicate Lost(line: Line, single: bool, delimiter: char)
    requires |line.row| > 0
  {
    RowWritten(line.row, delimiter) == "" && (line.ending == EndOfStream || (single && line.ending == LineFeed))
  }

  /** The rows that are read, the line before having ended in one character or not */
  function RowsRead(lines: seq<Line>, delimiter: char, single: bool): seq<seq<string>>
    requires forall i :: 0 <= i < |lines| ==> |lines[i].row| > 0
  {
    if lines == [] then []
    else if Lost(lines[0], single, delimiter) then RowsRead(lines[1..], delimiter, false)
    else [RowText(lines[0].row)] + RowsRead(lines[1..], delimiter, Single(lines[0].ending))
  }

  lemma BareCharacter(s: string, rest: string, delimiter: char)
    requires s != "" && s[1..] == rest && s[0] != '"' && DelimiterOk(delimiter)
    requires s[0] != '\\' ==> s[0] != delimiter && s[0] != '\n' && s[0] != '\r'
    ensures var next: Mode := if s[0] == '\\' then UnquotedEscaped else Unquoted;
            && Tokens(s, Unquoted, delimiter) == Prefixed([s[0]], Tokens(rest, next, delimiter))
            && LineLength(s, Unquoted, delimiter) == 1 + LineLength(rest, next, delimiter)
  {}

  lemma {:induction false} BareIsRead(text: string, tail: string, delimiter: char)
    requires BareOk(text, delimiter) && DelimiterOk(delimiter)
    ensures Tokens(text + tail, Unquoted, delimiter) == Prefixed(text, Tokens(tail, Unquoted, delimiter))
    ensures LineLength(text + tail, Unquoted, delimiter) == |text| + LineLength(tail, Unquoted, delimiter)
    decreases |text|
  {
    hide Tokens, LineLength;
    var s, fields := text + tail, Tokens(tail, Unquoted, delimiter);
    if text == "" {
      assert s == tail;
      assert "" + fields[0] == fields[0];
    } else if text[0] == '\\' {
      var rest := text[2..] + tail;
      assert s[1..] == [text[1]] + rest;
      BareCharacter(s, [text[1]] + rest, delimiter);
      KeptCharacter([text[1]] + rest, UnquotedEscaped, rest, delimiter);
      BareIsRead(text[2..], tail, delimiter);
      assert text == [text[0]] + ([text[1]] + text[2..]);
      PrefixedTwice([text[1]], text[2..], fields);
      PrefixedTwice([text[0]], [text[1]] + text[2..], fields);
    } else {
      BareCharacter(s, text[1..] + tail, delimiter);
      BareIsRead(text[1..], tail, delimiter);
      assert text == [text[0]] + text[1..];
      PrefixedTwice([text[0]], text[1..], fields);
    }
  }

  lemma PartIsRead(part: Part, tail: string, delimiter: char)
    requires PartOk(part, delimiter) && DelimiterOk(delimiter)
    ensures Tokens(PartWritten(part) + tail, Unquoted, delimiter)
         == Prefixed(part.text, Tokens(tail, Unquoted, delimiter))
    ensures LineLength(PartWritten(part) + tail, Unquoted, delimiter)
         == |PartWritten(part)| + LineLength(tail, Unquoted, delimiter)
  {
    hide Tokens, LineLength;
    match part
    case Bare(text) => BareIsRead(text, tail, delimiter);
    case Enclosed(text) =>
      assert PartWritten(part) + tail == "\"" + (text + "\"" + tail);
      OpeningQuote(PartWritten(part) + tail, text + "\"" + tail, delimiter);
      QuotedField(text, tail, delimiter);
  }

  lemma {:induction false} FieldIsRead(field: seq<Part>, tail: string, delimiter: char)
    requires FieldOk(field, delimiter) && DelimiterOk(delimiter)
    ensures Tokens(FieldWritten(field) + tail, Unquoted, delimiter)
         == Prefixed(FieldText(field), Tokens(tail, Unquoted, delimiter))
    ensures LineLength(FieldWritten(field) + tail, Unquoted, delimiter)
         == |FieldWritten(field)| + LineLength(tail, Unquoted, delimiter)
  {
    hide Tokens, LineLength, PartOk;
    var fields := Tokens(tail, Unquoted, delimiter);
    if field == [] {
      assert "" + tail == tail && "" + fields[0] == fields[0];
    } else {
      var rest := FieldWritten(field[1..]) + tail;
      assert FieldWritten(field) + tail == PartWritten(field[0]) + rest;
      PartIsRead(field[0], rest, delimiter);
      FieldIsRead(field[1..], tail, delimiter);
      PrefixedTwice(field[0].text, FieldText(field[1..]), fields);
    }
  }

  /** The stream ends here, or the line does. */
  predicate AtEnd(tail: string) {
    tail == "" || tail[0] == '\n' || tail[0] == '\r'
  }

  lemma LineEndRead(tail: string, delimiter: char)
    requires AtEnd(tail) && DelimiterOk(delimiter)
    ensures Tokens(tail, Unquoted, delimiter) == [""]
    ensures LineLength(tail, Unquoted, delimiter) == if tail == "" then 0 else 1
  {}

  lemma DelimiterRead(rest: string, delimiter: char)
    requires DelimiterOk(delimiter)
    ensures Tokens([delimiter] + rest, Unquoted, delimiter) == [""] + Tokens(rest, Unquoted, delimiter)
    ensures LineLength([delimiter] + rest, Unquoted, delimiter) == 1 + LineLength(rest, Unquoted, delimiter)
  {
    assert ([delimiter] + rest)[1..] == rest;
  }

  lemma {:induction false} RowIsRead(row: seq<seq<Part>>, tail: string, delimiter: char)
    requires RowOk(row, delimiter) && DelimiterOk(delimiter) && AtEnd(tail)
    ensures Tokens(RowWritten(row, delimiter) + tail, Unquoted, delimiter) == RowText(row)
    ensures LineLength(RowWritten(row, delimiter) + tail, Unquoted, delimiter)
         == |RowWritten(row, delimiter)| + if tail == "" then 0 else 1
  {
    hide Tokens, LineLength, FieldOk, FieldWritten, FieldText, AtEnd;
    var text := FieldText(row[0]);
    assert text + "" == text;
    if |row| == 1 {
      FieldIsRead(row[0], tail, delimiter);
      LineEndRead(tail, delimiter);
      assert RowText(row[1..]) == [];
    } else {
      var rest := RowWritten(row[1..], delimiter) + tail;
      assert RowWritten(row, delimiter) + tail == FieldWritten(row[0]) + ([delimiter] + rest);
      FieldIsRead(row[0], [delimiter] + rest, delimiter);
      DelimiterRead(rest, delimiter);
      RowIsRead(row[1..], tail, delimiter);
      assert ([""] + RowText(row[1..]))[1..] == RowText(row[1..]);
    }
  }

  lemma {:induction false} FieldStarts(field: seq<Part>, delimiter: char)
    requires FieldOk(field, delimiter) && FieldWritten(field) != ""
    ensures FieldWritten(field)[0] != '\n'
  {
    if PartWritten(field[0]) == "" {
      FieldStarts(field[1..], delimiter);
    }
  }

  /** No row begins with a line feed. */
  lemma RowStarts(row: seq<seq<Part>>, delimiter: char)
    requires RowOk(row, delimiter) && DelimiterOk(delimiter) && RowWritten(row, delimiter) != ""
    ensures RowWritten(row, delimiter)[0] != '\n'
  {
    hide FieldOk, FieldWritten;
    if FieldWritten(row[0]) != "" {
      FieldStarts(row[0], delimiter);
    }
  }

  /** What is left to read when the line before ended in a single character */
  function AfterSingle(s: string, single: bool): string {
    if single && s != "" && s[0] == '\n' then s[1..] else s
  }

  lemma LineIsRead(line: Line, tail: string, delimiter: char)
    requires RowOk(line.row, delimiter) && DelimiterOk(delimiter) && (line.ending == EndOfStream ==> tail == "")
    ensures var s := RowWritten(line.row, delimiter) + (EndWritten(line.ending) + tail);
            && Tokens(s, Unquoted, delimiter) == RowText(line.row)
            && Remainder(s, delimiter)
               == AfterSingle(tail, Single(line.ending))
  {
    hide Tokens, LineLength, FieldOk, RowText, RowWritten;
    var w, e := RowWritten(line.row, delimiter), EndWritten(line.ending);
    var s := w + (e + tail);
    RowIsRead(line.row, e + tail, delimiter);
    if line.ending == EndOfStream {
      assert s[|w|..] == "" == tail;
    } else {
      assert s[|w| + 1..] == (e + tail)[1..];
      if line.ending == Both {
        assert s[|w| + 1] == '\n' && s[|w| + 2..] == tail;
      } else {
        assert (e + tail)[1..] == tail;
        if tail != "" {
          assert s[|w| + 1] == tail[0] && s[|w| + 2..] == tail[1..];
        }
      }
    }
  }

  lemma {:induction false} LinesReadAfter(lines: seq<Line>, delimiter: char, single: bool)
    requires LinesOk(lines, delimiter) && DelimiterOk(delimiter)
    ensures ReadAll(AfterSingle(LinesWritten(lines, delimiter), single), delimiter)
         == RowsRead(lines, delimiter, single)
    decreases |lines|
  {
    hide RowText, Tokens, Remainder, FieldOk;
    if lines == [] {
    } else {
      var line, tail := lines[0], LinesWritten(lines[1..], delimiter);
      var w, s := RowWritten(line.row, delimiter), LinesWritten(lines, delimiter);
      LineIsRead(line, tail, delimiter);
      if w != "" {
        RowStarts(line.row, delimiter);
        assert s[0] == w[0];
      }
      if w == "" && line.ending == EndOfStream {
        assert |lines| == 1 && s == "";
      } else if w == "" && single && line.ending == LineFeed {
        assert s == "\n" + tail && s[1..] == tail;
        LinesReadAfter(lines[1..], delimiter, false);
      } else {
        assert AfterSingle(s, single) == s != "" by { NotSwallowed(line, w, tail); }
        LinesReadAfter(lines[1..], delimiter, Single(line.ending));
      }
    }
  }

  lemma NotSwallowed(line: Line, w: string, tail: string)
    requires w == "" ==> line.ending != EndOfStream
    ensures var s := w + (EndWritten(line.ending) + tail);
            s != "" && s[0] == if w == "" then EndWritten(line.ending)[0] else w[0]
  {}

  function Rows(lines: seq<Line>): (r: seq<seq<string>>)
    ensures |r| == |lines|
  {
    if lines == [] then [] else [RowText(lines[0].row)] + Rows(lines[1..])
  }

  predicate LostAt(lines: seq<Line>, i: nat, single: bool, delimiter: char)
    requires i < |lines| && |lines[i].row| > 0
  {
    Lost(lines[i], if i == 0 then single else Single(lines[i-1].ending), delimiter)
  }

  ghost predicate NoneLost(lines: seq<Line>, single: bool, delimiter: char)
    requires forall i :: 0 <= i < |lines| ==> |lines[i].row| > 0
  {
    forall i :: 0 <= i < |lines| ==> !LostAt(lines, i, single, delimiter)
  }

  lemma {:induction false} AllReadUnlessLost(lines: seq<Line>, delimiter: char, single: bool)
    requires forall i :: 0 <= i < |lines| ==> |lines[i].row| > 0
    ensures |RowsRead(lines, delimiter, single)| <= |lines|
    ensures RowsRead(lines, delimiter, single) == Rows(lines) <==> NoneLost(lines, single, delimiter)
  {
    hide Lost, RowText;
    if lines == [] {
    } else {
      var line, rest := lines[0], lines[1..];
      hide NoneLost;
      NoneLostNext(lines, delimiter, single);
      if Lost(line, single, delimiter) {
        AllReadUnlessLost(rest, delimiter, false);
      } else {
        AllReadUnlessLost(rest, delimiter, Single(line.ending));
        assert Rows(lines)[1..] == Rows(rest);
        assert RowsRead(lines, delimiter, single)[1..] == RowsRead(rest, delimiter, Single(line.ending));
      }
    }
  }

  lemma NoneLostNext(lines: seq<Line>, delimiter: char, single: bool)
    requires lines != [] && forall i :: 0 <= i < |lines| ==> |lines[i].row| > 0
    ensures NoneLost(lines, single, delimiter)
       <==> !Lost(lines[0], single, delimiter) && NoneLost(lines[1..], Single(lines[0].ending), delimiter)
  {
    hide Lost, Single;
    var rest := lines[1..];
    assert LostAt(lines, 0, single, delimiter) == Lost(lines[0], single, delimiter);
    forall i | 0 <= i < |rest|
      ensures LostAt(rest, i, Single(lines[0].ending), delimiter) == LostAt(lines, i + 1, single, delimiter)
    {
    }
    if NoneLost(rest, Single(lines[0].ending), delimiter) {
      forall i | 0 < i < |lines|
        ensures LostAt(lines, i, single, delimiter) == LostAt(rest, i - 1, Single(lines[0].ending), delimiter)
      {
      }
    }
  }

  /** Whatever is written, with any mixture of bare and quoted parts, escapes and line
      ends, is read back if and only if no line is lost. */
  lemma LinesRoundTrip(lines: seq<Line>, delimiter: char)
    requires LinesOk(lines, delimiter) && DelimiterOk(delimiter)
    ensures ReadAll(LinesWritten(lines, delimiter), delimiter) == Rows(lines) <==> NoneLost(lines, false, delimiter)
  {
    hide ReadAll, RowsRead, Rows, NoneLost, FieldOk;
    LinesReadAfter(lines, delimiter, false);
    AllReadUnlessLost(lines, delimiter, false);
  }

  /** An empty line between two others is lost. */
  lemma EmptyLineLost(a: Line, b: Line, delimiter: char)
    requires DelimiterOk(delimiter) && RowOk(a.row, delimiter) && RowOk(b.row, delimiter)
    requires a.ending == b.ending == LineFeed
    requires RowWritten(a.row, delimiter) != "" && RowWritten(b.row, delimiter) != ""
    ensures var s := RowWritten(a.row, delimiter) + "\n" + "\n" + RowWritten(b.row, delimiter) + "\n";
            ReadAll(s, delimiter) == [RowText(a.row), RowText(b.row)]
  {
    hide ReadAll, RowWritten, RowText, FieldOk;
    var empty := Line([[]], LineFeed);
    var lines := [a, empty, b];
    EmptyWritten(delimiter);
    assert lines[1..] == [empty, b] && lines[1..][1..] == [b] && [b][1..] == [];
    LinesReadAfter(lines, delimiter, false);
    assert RowsRead([b], delimiter, false) == [RowText(b.row)] + RowsRead([], delimiter, true);
    assert LinesWritten([b], delimiter) == RowWritten(b.row, delimiter) + ("\n" + "");
    assert LinesWritten(lines, delimiter)
        == RowWritten(a.row, delimiter) + "\n" + "\n" + RowWritten(b.row, delimiter) + "\n";
  }

  lemma EmptyWritten(delimiter: char)
    ensures RowOk([[]], delimiter) && RowWritten([[]], delimiter) == ""
  {}
}
