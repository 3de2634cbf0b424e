/** A reader for the bracketed form of the unified log format (log fields section of TiKV RFC 0018):
    groups `[key=value]` separated by blanks, each key and value bare or a JSON string. */
module LogReader {
  import opened Options
  import opened LogBytes
  import opened LogEncoder

  // ---------------------------------------------------------------- the reader

  /** Where the closing quote of a JSON string body is. */
  function BodyEnd(s: Bytes): (r: Option<nat>)
    ensures r.Some? ==> r.value < |s|
    decreases |s|
  {
    if s == [] then None
    else if s[0] == QUOTE then Some(0)
    else if s[0] == BACKSLASH then (if |s| < 2 then None else Shift(2, BodyEnd(s[2..])))
    else Shift(1, BodyEnd(s[1..]))
  }

  function Shift(n: nat, r: Option<nat>): Option<nat> {
    if r.None? then None else Some(n + r.value)
  }

  /** Bytes that end a bare key or value: blanks and control bytes, quotes, brackets and `=`. */
  predicate EndsBare(b: Byte) {
    b <= 0x20 || b == QUOTE || b == LBRACKET || b == RBRACKET || b == EQUALS
  }

  function BareLen(s: Bytes): (n: nat)
    ensures n <= |s|
  {
    if s == [] || EndsBare(s[0]) then 0 else 1 + BareLen(s[1..])
  }

  datatype Read<+T> = Read(value: T, rest: Bytes)

  /** What follows an opening quote. */
  function ReadQuoted(s: Bytes): (r: Option<Read<Bytes>>)
    ensures r.Some? ==> |r.value.rest| <= |s|
  {
    var end := BodyEnd(s);
    if end.None? then None
    else
      var text := Unescaped(s[..end.value]);
      if text.None? then None else Some(Read(text.value, s[end.value + 1..]))
  }

  function ReadBare(s: Bytes): (r: Option<Read<Bytes>>)
    ensures r.Some? ==> |r.value.rest| <= |s|
  {
    var n := BareLen(s);
    var text := Unescaped(s[..n]);
    if text.None? then None else Some(Read(text.value, s[n..]))
  }

  function ReadToken(s: Bytes): (r: Option<Read<Bytes>>)
    ensures r.Some? ==> |r.value.rest| <= |s|
  {
    if s != [] && s[0] == QUOTE then ReadQuoted(s[1..]) else ReadBare(s)
  }

  predicate Starts(s: Bytes, b: Byte) {
    s != [] && s[0] == b
  }

  function ReadGroup(s: Bytes): (r: Option<Read<(Bytes, Bytes)>>)
    ensures r.Some? ==> |r.value.rest| < |s|
  {
    if !Starts(s, LBRACKET) then None
    else
      var key := ReadToken(s[1..]);
      if key.None? || !Starts(key.value.rest, EQUALS) then None
      else
        var text := ReadToken(key.value.rest[1..]);
        if text.None? || !Starts(text.value.rest, RBRACKET) then None
        else Some(Read((key.value.value, text.value.value), text.value.rest[1..]))
  }

  function ReadGroups(s: Bytes): Option<seq<(Bytes, Bytes)>>
    decreases |s|
  {
    var first := ReadGroup(s);
    if first.None? then None
    else if first.value.rest == [] then Some([first.value.value])
    else if !Starts(first.value.rest, SPACE) then None
    else
      var more := ReadGroups(first.value.rest[1..]);
      if more.None? then None else Some([first.value.value] + more.value)
  }

  function ReadFields(s: Bytes): Option<seq<(Bytes, Bytes)>> {
    if s == [] then Some([]) else ReadGroups(s)
  }

  // ---------------------------------------------------------------- tokens

  lemma BodyEndPlain(u: Bytes, rest: Bytes)
    requires forall i :: 0 <= i < |u| ==> u[i] != QUOTE && u[i] != BACKSLASH
    ensures BodyEnd(u + rest) == Shift(|u|, BodyEnd(rest))
  {
    if u == [] {
      assert u + rest == rest;
    } else {
      assert (u + rest)[0] == u[0] && (u + rest)[1..] == u[1..] + rest;
      BodyEndPlain(u[1..], rest);
    }
  }

  lemma BodyEndEscape(u: Bytes, rest: Bytes)
    requires |u| >= 2 && u[0] == BACKSLASH
    requires forall i :: 2 <= i < |u| ==> u[i] != QUOTE && u[i] != BACKSLASH
    ensures BodyEnd(u + rest) == Shift(|u|, BodyEnd(rest))
  {
    assert (u + rest)[0] == BACKSLASH && (u + rest)[2..] == u[2..] + rest;
    BodyEndPlain(u[2..], rest);
  }

  /** A round of escaping never ends a string body. */
  lemma BodyEndUnit(s: Bytes, rest: Bytes)
    requires s != []
    ensures BodyEnd(EscapedUnit(s) + rest) == Shift(|EscapedUnit(s)|, BodyEnd(rest))
  {
    var u := EscapedUnit(s);
    if s[0] >= RUNE_SELF && !IllFormed(s) {
      BodyEndPlain(u, rest);
    } else if u[0] == BACKSLASH {
      BodyEndEscape(u, rest);
    } else {
      BodyEndPlain(u, rest);
    }
  }

  lemma {:induction false} BodyEndEscaped(s: Bytes, rest: Bytes)
    ensures BodyEnd(Escaped(s) + ([QUOTE] + rest)) == Some(|Escaped(s)|)
    decreases |s|
  {
    var tail := [QUOTE] + rest;
    if s == [] {
      assert [] + tail == tail;
    } else {
      var more := Escaped(s[UnitSize(s)..]);
      BodyEndEscaped(s[UnitSize(s)..], rest);
      JoinAssoc(EscapedUnit(s), more, tail);
      BodyEndUnit(s, more + tail);
    }
  }

  predicate Plain(s: Bytes) {
    forall i :: 0 <= i < |s| ==> !EndsBare(s[i])
  }

  lemma {:induction false} BareEscaped(s: Bytes)
    requires !NeedsQuotes(s)
    ensures Plain(Escaped(s))
    decreases |s|
  {
    if s != [] {
      assert !Special(s[0]);
      var n := UnitSize(s);
      forall i | 0 <= i < |s[n..]|
        ensures !Special(s[n..][i])
      {
        assert s[n..][i] == s[n + i];
      }
      BareEscaped(s[n..]);
      assert Plain(EscapedUnit(s));
    }
  }

  lemma {:induction false} BareLenPlain(u: Bytes, rest: Bytes)
    requires Plain(u) && (Starts(rest, EQUALS) || Starts(rest, RBRACKET))
    ensures BareLen(u + rest) == |u|
  {
    if u == [] {
      assert u + rest == rest;
    } else {
      assert (u + rest)[0] == u[0] && (u + rest)[1..] == u[1..] + rest;
      BareLenPlain(u[1..], rest);
    }
  }

  lemma Slices(body: Bytes, q: Byte, rest: Bytes)
    ensures var tail := body + ([q] + rest); tail[..|body|] == body && tail[|body| + 1..] == rest
    ensures var s := [q] + body + [q] + rest; s[0] == q && s[1..] == body + ([q] + rest)
  {
  }

  lemma QuotedTokenReads(body: Bytes, text: Bytes, rest: Bytes)
    requires Unescaped(body) == Some(text) && BodyEnd(body + ([QUOTE] + rest)) == Some(|body|)
    ensures ReadToken([QUOTE] + body + [QUOTE] + rest) == Some(Read(text, rest))
  {
    Slices(body, QUOTE, rest);
    assert ReadQuoted(body + ([QUOTE] + rest)) == Some(Read(text, rest));
  }

  lemma BareTokenReads(body: Bytes, text: Bytes, rest: Bytes)
    requires Plain(body) && (Starts(rest, EQUALS) || Starts(rest, RBRACKET))
    requires Unescaped(body) == Some(text)
    ensures ReadToken(body + rest) == Some(Read(text, rest))
  {
    var s := body + rest;
    BareLenPlain(body, rest);
    assert s[..|body|] == body && s[|body|..] == rest;
    assert s[0] != QUOTE by {
      if body != [] {
        assert s[0] == body[0];
      }
    }
  }

  /** A key or a value reads back as itself, with ill-formed bytes replaced. */
  lemma TokenReads(v: Bytes, rest: Bytes)
    requires Starts(rest, EQUALS) || Starts(rest, RBRACKET)
    ensures ReadToken(Quoted(v) + rest) == Some(Read(Sanitized(v), rest))
  {
    EscapeRoundTrip(v);
    if NeedsQuotes(v) {
      BodyEndEscaped(v, rest);
      QuotedTokenReads(Escaped(v), Sanitized(v), rest);
    } else {
      BareEscaped(v);
      BareTokenReads(Escaped(v), Sanitized(v), rest);
    }
  }

  // ---------------------------------------------------------------- groups

  lemma GroupReads(key: Bytes, text: Bytes, rest: Bytes)
    ensures ReadGroup(Group([], Pair(key, Quoted(text))) + rest) == Some(Read((Sanitized(key), Sanitized(text)), rest))
  {
    var s := Group([], Pair(key, Quoted(text))) + rest;
    var afterKey := [EQUALS] + (Quoted(text) + ([RBRACKET] + rest));
    GroupShape(Quoted(key), Quoted(text), rest);
    TokenReads(key, afterKey);
    assert afterKey[1..] == Quoted(text) + ([RBRACKET] + rest);
    TokenReads(text, [RBRACKET] + rest);
    assert ([RBRACKET] + rest)[1..] == rest;
  }

  lemma GroupShape(k: Bytes, v: Bytes, rest: Bytes)
    ensures var s := Opened([]) + (k + [EQUALS] + v) + [RBRACKET] + rest;
            s != [] && s[0] == LBRACKET && s[1..] == k + ([EQUALS] + (v + ([RBRACKET] + rest)))
  {
  }

  ghost predicate AllStrings(fields: seq<Field>) {
    forall i :: 0 <= i < |fields| ==> fields[i].StringField?
  }

  /** The keys and values, ill-formed bytes replaced. */
  function Pairs(fields: seq<Field>): seq<(Bytes, Bytes)>
    requires AllStrings(fields)
  {
    seq(|fields|, i requires 0 <= i < |fields| => (Sanitized(fields[i].key), Sanitized(fields[i].text)))
  }

  lemma {:induction false} GroupsRead(fields: seq<Field>, terse: bool)
    requires fields != [] && AllStrings(fields)
    ensures ReadGroups(FieldsText([], fields, terse)) == Some(Pairs(fields))
    decreases |fields|
  {
    var f := fields[0];
    var group := FirstGroup(f);
    var first := (Sanitized(f.key), Sanitized(f.text));
    FieldsShape(fields, terse);
    PairsUncons(fields);
    if |fields| == 1 {
      GroupReads(f.key, f.text, []);
      JoinAssoc(group, [], []);
      OneGroup(group, first);
    } else {
      var more := FieldsText([], fields[1..], terse);
      GroupReads(f.key, f.text, [SPACE] + more);
      GroupsRead(fields[1..], terse);
      GroupThen(group, first, more);
    }
  }

  function FirstGroup(f: Field): Bytes
    requires f.StringField?
  {
    Group([], Pair(f.key, Quoted(f.text)))
  }

  lemma FieldsShape(fields: seq<Field>, terse: bool)
    requires fields != [] && AllStrings(fields)
    ensures FieldsText([], fields, terse)
         == if |fields| == 1 then FirstGroup(fields[0])
            else FirstGroup(fields[0]) + ([SPACE] + FieldsText([], fields[1..], terse))
  {
    var group := FirstGroup(fields[0]);
    assert FieldsText([], fields, terse) == FieldsText(group, fields[1..], terse);
    assert group != [];
    FieldsAfter(group, fields[1..], terse);
    JoinAssoc(group, [], []);
  }

  lemma PairsUncons(fields: seq<Field>)
    requires fields != [] && AllStrings(fields)
    ensures Pairs(fields) == [(Sanitized(fields[0].key), Sanitized(fields[0].text))] + Pairs(fields[1..])
    ensures |fields| == 1 ==> Pairs(fields) == [(Sanitized(fields[0].key), Sanitized(fields[0].text))]
  {
  }

  lemma OneGroup(group: Bytes, first: (Bytes, Bytes))
    requires ReadGroup(group) == Some(Read(first, []))
    ensures ReadGroups(group) == Some([first])
  {
  }

  lemma GroupThen(group: Bytes, first: (Bytes, Bytes), more: Bytes)
    requires ReadGroup(group + ([SPACE] + more)) == Some(Read(first, [SPACE] + more))
    ensures ReadGroups(group + ([SPACE] + more))
         == if ReadGroups(more).None? then None else Some([first] + ReadGroups(more).value)
  {
    assert ([SPACE] + more)[1..] == more;
  }

  /** Any list of string fields reads back, in order, as its keys and values with ill-formed bytes
      replaced. */
  lemma FieldsReadBack(fields: seq<Field>, terse: bool)
    requires AllStrings(fields)
    ensures ReadFields(FieldsText([], fields, terse)) == Some(Pairs(fields))
  {
    if fields == [] {
      assert Pairs(fields) == [];
    } else {
      GroupsRead(fields, terse);
      FieldsAfter([SPACE], fields, terse);
    }
  }

  function RawPairs(fields: seq<Field>): seq<(Bytes, Bytes)>
    requires AllStrings(fields)
  {
    seq(|fields|, i requires 0 <= i < |fields| => (fields[i].key, fields[i].text))
  }

  /** With valid UTF-8 nothing is lost. */
  lemma ValidFieldsReadBack(fields: seq<Field>, terse: bool)
    requires AllStrings(fields)
    requires forall i :: 0 <= i < |fields| ==> ValidUTF8(fields[i].key) && ValidUTF8(fields[i].text)
    ensures ReadFields(FieldsText([], fields, terse)) == Some(RawPairs(fields))
  {
    FieldsReadBack(fields, terse);
    PairsRaw(fields);
  }

  lemma PairsRaw(fields: seq<Field>)
    requires AllStrings(fields)
    requires forall i :: 0 <= i < |fields| ==> ValidUTF8(fields[i].key) && ValidUTF8(fields[i].text)
    ensures Pairs(fields) == RawPairs(fields)
  {
    forall i | 0 <= i < |fields|
      ensures Pairs(fields)[i] == RawPairs(fields)[i]
    {
      SanitizedValid(fields[i].key);
      SanitizedValid(fields[i].text);
    }
  }
}
