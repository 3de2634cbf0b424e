/** A reader for whole log lines: bracketed values, then bracketed `key=value` groups, closing braces of namespaces,
    and a line end (log header and log fields sections of TiKV RFC 0018). */
module LogLine {
  import opened Options
  import opened LogBytes
  import opened LogEncoder
  import opened LogReader

  // ---------------------------------------------------------------- the reader

  /** What one pair of brackets holds. */
  datatype Item = Value(text: Bytes) | KeyValue(key: Bytes, text: Bytes)

  /** Up to the next closing bracket, as it stands. */
  function ReadRaw(s: Bytes): (r: Option<Read<Item>>)
    ensures r.Some? ==> |r.value.rest| <= |s|
  {
    if s == [] then None
    else if s[0] == RBRACKET then Some(Read(Value([]), s[1..]))
    else
      var more := ReadRaw(s[1..]);
      if more.None? then None
      else Some(Read(Value([s[0]] + more.value.value.text), more.value.rest))
  }

  /** What follows an opening bracket: a token, two tokens with `=` between, or text as it stands. */
  function ReadInside(s: Bytes): (r: Option<Read<Item>>)
    ensures r.Some? ==> |r.value.rest| <= |s|
  {
    var first := ReadToken(s);
    if first.Some? && Starts(first.value.rest, RBRACKET) then
      Some(Read(Value(first.value.value), first.value.rest[1..]))
    else if first.Some? && Starts(first.value.rest, EQUALS) then
      var second := ReadToken(first.value.rest[1..]);
      if second.Some? && Starts(second.value.rest, RBRACKET) then
        Some(Read(KeyValue(first.value.value, second.value.value), second.value.rest[1..]))
      else None
    else ReadRaw(s)
  }

  function CountBraces(s: Bytes): (n: nat)
    ensures n <= |s|
  {
    if Starts(s, RBRACE) then 1 + CountBraces(s[1..]) else 0
  }

  /** An item with the number of braces closed right after it. */
  datatype Closed = Closed(item: Item, braces: nat)

  /** "[" item "]" braces { " [" item "]" braces } line end */
  function ReadLine(s: Bytes): Option<seq<Closed>>
    decreases |s|
  {
    if !Starts(s, LBRACKET) then None
    else
      var item := ReadInside(s[1..]);
      if item.None? then None
      else
        var n := CountBraces(item.value.rest);
        var rest := item.value.rest[n..];
        var first := Closed(item.value.value, n);
        if rest == [NEWLINE] then Some([first])
        else if !Starts(rest, SPACE) then None
        else
          var more := ReadLine(rest[1..]);
          if more.None? then None else Some([first] + more.value)
  }

  // ---------------------------------------------------------------- reading numbers

  predicate IsDigit(b: Byte) {
    48 <= b <= 57
  }

  function ReadNat(s: Bytes): Option<nat> {
    if s == [] then None
    else if !IsDigit(s[|s| - 1]) then None
    else if |s| == 1 then Some(s[0] - 48)
    else
      var front := ReadNat(s[..|s| - 1]);
      if front.None? then None else Some(10 * front.value + (s[|s| - 1] - 48))
  }

  function ReadInt(s: Bytes): Option<int> {
    var negative := Starts(s, 45);
    var n := ReadNat(if negative then s[1..] else s);
    if n.None? then None
    else
      var m: int := n.value;
      Some(if negative then -m else m)
  }

  /** Bytes of a text in ASCII. */
  function Ascii(s: string): Bytes
    requires forall i :: 0 <= i < |s| ==> s[i] as int < 128
  {
    seq(|s|, i requires 0 <= i < |s| => s[i] as int)
  }

  lemma {:induction false} DigitsRead(n: nat)
    ensures Digits(n) != [] && ReadNat(Digits(n)) == Some(n)
    ensures forall i :: 0 <= i < |Digits(n)| ==> IsDigit(Digits(n)[i])
  {
    if n >= 10 {
      DigitsRead(n / 10);
      var s := Digits(n);
      assert s[..|s| - 1] == Digits(n / 10) && s[|s| - 1] == 48 + n % 10;
    }
  }

  predicate IsNumberByte(b: Byte) {
    IsDigit(b) || b == 45
  }

  lemma NegativeReads(n: nat, m: int)
    requires m + n == 0
    ensures ReadInt([45] + Digits(n)) == Some(m)
    ensures forall i :: 0 <= i < |[45] + Digits(n)| ==> IsNumberByte(([45] + Digits(n))[i])
  {
    DigitsRead(n);
    assert ([45] + Digits(n))[1..] == Digits(n);
  }

  lemma NaturalReads(n: nat)
    ensures ReadInt(Digits(n)) == Some(n)
    ensures forall i :: 0 <= i < |Digits(n)| ==> IsNumberByte(Digits(n)[i])
  {
    DigitsRead(n);
    assert IsDigit(Digits(n)[0]);
  }

  lemma DecimalReads(n: int)
    ensures ReadInt(Decimal(n)) == Some(n)
    ensures TimeText(Decimal(n)) && SPACE !in Decimal(n)
  {
    if n < 0 {
      NegativeReads(-n, n);
    } else {
      NaturalReads(n);
    }
    assert forall i :: 0 <= i < |Decimal(n)| ==> IsNumberByte(Decimal(n)[i]);
  }

  // ---------------------------------------------------------------- what a line must show

  /** Printable ASCII that needs no escape and ends no bracket. */
  predicate Printable(b: Byte) {
    0x20 <= b < 0x7F && b != QUOTE && b != BACKSLASH && b != LBRACKET && b != RBRACKET && b != EQUALS
  }

  /** A time as the layout prints it. */
  predicate TimeText(t: Bytes) {
    forall i :: 0 <= i < |t| ==> Printable(t[i])
  }

  /** The items show the field: strings and errors with ill-formed bytes replaced, numbers and booleans readable as
      such, a namespace by its opening brace, and for an error its verbose text if it has a different one that is not
      switched off. */
  ghost predicate Shows(f: Field, terse: bool, items: seq<Item>) {
    match f
    case StringField(key, text) => items == [KeyValue(Sanitized(key), Sanitized(text))]
    case ByteStringField(key, text) => items == [KeyValue(Sanitized(key), Sanitized(text))]
    case BoolField(key, flag) => items == [KeyValue(Sanitized(key), if flag then Ascii("true") else Ascii("false"))]
    case IntField(key, n) =>
      |items| == 1 && items[0].KeyValue? && items[0].key == Sanitized(key) && ReadInt(items[0].text) == Some(n)
    case NamespaceField(key) => items == [KeyValue(Sanitized(key), Ascii("{"))]
    case SkipField => items == [Value([])]
    case ErrorField(key, basic, verbose) =>
      if terse || verbose.None? || verbose.value == basic then items == [KeyValue(Sanitized(key), Sanitized(basic))]
      else items == [KeyValue(Sanitized(key), Sanitized(basic)),
                     KeyValue(Sanitized(key + Ascii("Verbose")), Sanitized(verbose.value))]
  }

  function OpenedBy(fields: seq<Field>): nat {
    if fields == [] then 0
    else OpenedBy(fields[..|fields| - 1]) + if fields[|fields| - 1].NamespaceField? then 1 else 0
  }

  function Flat(parts: seq<seq<Item>>): seq<Item> {
    if parts == [] then [] else parts[0] + Flat(parts[1..])
  }

  // ---------------------------------------------------------------- bodies in brackets

  /** The body between brackets reads as the item, whatever follows. */
  ghost predicate Reads(body: Bytes, item: Item) {
    forall rest :: ReadsBefore(body, item, rest)
  }

  ghost predicate ReadsBefore(body: Bytes, item: Item, rest: Bytes) {
    ReadInside(body + ([RBRACKET] + rest)) == Some(Read(item, rest))
  }

  /** A token reads as the text in front of `=` and of `]`. */
  ghost predicate IsToken(w: Bytes, text: Bytes) {
    forall rest :: Starts(rest, EQUALS) || Starts(rest, RBRACKET) ==> ReadToken(w + rest) == Some(Read(text, rest))
  }

  lemma QuotedIsToken(v: Bytes)
    ensures IsToken(Quoted(v), Sanitized(v))
  {
    forall rest | Starts(rest, EQUALS) || Starts(rest, RBRACKET)
      ensures ReadToken(Quoted(v) + rest) == Some(Read(Sanitized(v), rest))
    {
      TokenReads(v, rest);
    }
  }

  lemma {:induction false} PrintableUnescapes(t: Bytes)
    requires TimeText(t)
    ensures Unescaped(t) == Some(t)
  {
    if t != [] {
      assert Printable(t[0]);
      assert t[..1] == [t[0]];
      PrintableUnescapes(t[1..]);
      assert t == [t[0]] + t[1..];
    }
  }

  /** Printable text without blanks. */
  lemma PrintableIsToken(w: Bytes)
    requires TimeText(w) && SPACE !in w
    ensures IsToken(w, w)
  {
    PrintableUnescapes(w);
    forall rest | Starts(rest, EQUALS) || Starts(rest, RBRACKET)
      ensures ReadToken(w + rest) == Some(Read(w, rest))
    {
      assert forall i :: 0 <= i < |w| ==> Printable(w[i]) && w[i] in w;
      BareTokenReads(w, w, rest);
    }
  }

  lemma ValueReads(w: Bytes, text: Bytes)
    requires IsToken(w, text)
    ensures Reads(w, Value(text))
  {
    forall rest
      ensures ReadsBefore(w, Value(text), rest)
    {
      assert ([RBRACKET] + rest)[1..] == rest;
    }
  }

  lemma PairReads(k: Bytes, key: Bytes, w: Bytes, text: Bytes)
    requires IsToken(k, key) && IsToken(w, text)
    ensures Reads(k + [EQUALS] + w, KeyValue(key, text))
  {
    forall rest
      ensures ReadsBefore(k + [EQUALS] + w, KeyValue(key, text), rest)
    {
      var end := [RBRACKET] + rest;
      var after := [EQUALS] + (w + end);
      assert k + [EQUALS] + w + end == k + after;
      assert after[1..] == w + end && end[1..] == rest;
      assert Starts(after, EQUALS) && Starts(end, RBRACKET);
    }
  }

  lemma {:induction false} RawReads(t: Bytes, rest: Bytes)
    requires TimeText(t)
    ensures ReadRaw(t + ([RBRACKET] + rest)) == Some(Read(Value(t), rest))
  {
    var s := t + ([RBRACKET] + rest);
    if t == [] {
      assert s == [RBRACKET] + rest && s[1..] == rest;
    } else {
      assert Printable(t[0]);
      assert s[0] == t[0] && s[1..] == t[1..] + ([RBRACKET] + rest);
      RawReads(t[1..], rest);
      assert t == [t[0]] + t[1..];
    }
  }

  lemma {:induction false} BareOfTime(t: Bytes, rest: Bytes) returns (n: nat)
    requires TimeText(t)
    ensures n <= |t| && BareLen(t + ([RBRACKET] + rest)) == n && (n < |t| ==> t[n] == SPACE)
  {
    var s := t + ([RBRACKET] + rest);
    if t == [] {
      n := 0;
      assert s[0] == RBRACKET;
    } else {
      assert Printable(t[0]) && s[0] == t[0];
      if t[0] == SPACE {
        n := 0;
      } else {
        assert s[1..] == t[1..] + ([RBRACKET] + rest);
        n := BareOfTime(t[1..], rest);
        n := n + 1;
      }
    }
  }

  /** The time is read as it stands, blanks and all. */
  lemma TimeReads(t: Bytes)
    requires TimeText(t)
    ensures Reads(t, Value(t))
  {
    forall rest
      ensures ReadsBefore(t, Value(t), rest)
    {
      var s := t + ([RBRACKET] + rest);
      var n := BareOfTime(t, rest);
      RawReads(t, rest);
      assert s[0] != QUOTE by {
        if t != [] {
          assert s[0] == t[0] && Printable(t[0]);
        }
      }
      assert s[..n] == t[..n];
      PrintableUnescapes(t[..n]);
      assert ReadToken(s) == Some(Read(t[..n], s[n..]));
      if n < |t| {
        assert s[n..][0] == t[n];
      } else {
        assert s[n..] == [RBRACKET] + rest && t[..n] == t && s[n..][1..] == rest;
      }
    }
  }

  // ---------------------------------------------------------------- a field's bodies

  function BodiesOf(f: Field, terse: bool): seq<Bytes> {
    if f.ErrorField? then
      [Pair(f.key, Quoted(f.basic))] +
      (if !terse && f.verbose.Some? && f.verbose.value != f.basic
       then [Pair(f.key + VERBOSE, Quoted(f.verbose.value))] else [])
    else [FieldBody(f)]
  }

  ghost predicate AllRead(bodies: seq<Bytes>, items: seq<Item>) {
    |bodies| == |items| && forall i :: 0 <= i < |bodies| ==> Reads(bodies[i], items[i])
  }

  lemma QuotedPairReads(key: Bytes, text: Bytes)
    ensures Reads(Pair(key, Quoted(text)), KeyValue(Sanitized(key), Sanitized(text)))
  {
    QuotedIsToken(key);
    QuotedIsToken(text);
    PairReads(Quoted(key), Sanitized(key), Quoted(text), Sanitized(text));
  }

  lemma PlainPairReads(key: Bytes, text: Bytes)
    requires TimeText(text) && SPACE !in text
    ensures Reads(Pair(key, text), KeyValue(Sanitized(key), text))
  {
    QuotedIsToken(key);
    PrintableIsToken(text);
    PairReads(Quoted(key), Sanitized(key), text, text);
  }

  lemma AsciiTexts()
    ensures BoolText(true) == Ascii("true") && BoolText(false) == Ascii("false") && [LBRACE] == Ascii("{")
    ensures VERBOSE == Ascii("Verbose") && STACK == Ascii("stack")
    ensures TimeText(Ascii("true")) && TimeText(Ascii("false")) && TimeText(Ascii("{"))
    ensures SPACE !in Ascii("true") && SPACE !in Ascii("false") && SPACE !in Ascii("{")
  {
  }

  lemma EmptyReads()
    ensures Reads([], Value([]))
  {
    TimeReads([]);
  }

  lemma FieldReads(f: Field, terse: bool) returns (items: seq<Item>)
    ensures AllRead(BodiesOf(f, terse), items) && Shows(f, terse, items)
  {
    AsciiTexts();
    match f
    case StringField(key, text) =>
      QuotedPairReads(key, text);
      items := [KeyValue(Sanitized(key), Sanitized(text))];
    case ByteStringField(key, text) =>
      QuotedPairReads(key, text);
      items := [KeyValue(Sanitized(key), Sanitized(text))];
    case BoolField(key, flag) =>
      PlainPairReads(key, BoolText(flag));
      items := [KeyValue(Sanitized(key), BoolText(flag))];
    case IntField(key, n) =>
      DecimalReads(n);
      PlainPairReads(key, Decimal(n));
      items := [KeyValue(Sanitized(key), Decimal(n))];
    case NamespaceField(key) =>
      PlainPairReads(key, [LBRACE]);
      items := [KeyValue(Sanitized(key), [LBRACE])];
    case SkipField =>
      EmptyReads();
      items := [Value([])];
    case ErrorField(key, basic, verbose) =>
      QuotedPairReads(key, basic);
      items := [KeyValue(Sanitized(key), Sanitized(basic))];
      if !terse && verbose.Some? && verbose.value != basic {
        QuotedPairReads(key + VERBOSE, verbose.value);
        items := items + [KeyValue(Sanitized(key + VERBOSE), Sanitized(verbose.value))];
      }
  }

  // ---------------------------------------------------------------- bodies in a row

  /** Bodies in brackets, blanks between. */
  function Glued(buf: Bytes, bodies: seq<Bytes>): Bytes
    decreases |bodies|
  {
    if bodies == [] then buf else Glued(Group(buf, bodies[0]), bodies[1..])
  }

  /** The same after something, a blank in front of each. */
  function Following(bodies: seq<Bytes>): Bytes {
    if bodies == [] then [] else [SPACE, LBRACKET] + bodies[0] + [RBRACKET] + Following(bodies[1..])
  }

  lemma {:induction false} GluedFollows(buf: Bytes, bodies: seq<Bytes>)
    requires buf != []
    ensures Glued(buf, bodies) == buf + Following(bodies)
    decreases |bodies|
  {
    if bodies != [] {
      GluedFollows(Group(buf, bodies[0]), bodies[1..]);
      var b, more := bodies[0], Following(bodies[1..]);
      assert buf + [SPACE, LBRACKET] + b + [RBRACKET] + more == buf + ([SPACE, LBRACKET] + b + [RBRACKET] + more);
    } else {
      assert buf + [] == buf;
    }
  }

  lemma {:induction false} GluedMore(buf: Bytes, xs: seq<Bytes>, ys: seq<Bytes>)
    ensures Glued(Glued(buf, xs), ys) == Glued(buf, xs + ys)
    decreases |xs|
  {
    if xs == [] {
      assert xs + ys == ys;
    } else {
      assert (xs + ys)[0] == xs[0] && (xs + ys)[1..] == xs[1..] + ys;
      GluedMore(Group(buf, xs[0]), xs[1..], ys);
    }
  }

  function AllBodies(fields: seq<Field>, terse: bool): seq<Bytes> {
    if fields == [] then [] else BodiesOf(fields[0], terse) + AllBodies(fields[1..], terse)
  }

  lemma FieldGlued(buf: Bytes, f: Field, terse: bool)
    ensures FieldText(buf, f, terse) == Glued(buf, BodiesOf(f, terse))
  {
    if f.ErrorField? {
      var first := Pair(f.key, Quoted(f.basic));
      if !terse && f.verbose.Some? && f.verbose.value != f.basic {
        var second := Pair(f.key + VERBOSE, Quoted(f.verbose.value));
        GluedIf(buf, true, first, [second]);
        GluedOne(Group(buf, first), second);
      } else {
        GluedOne(buf, first);
        assert [first] + [] == [first];
      }
    } else {
      GluedOne(buf, FieldBody(f));
    }
  }

  lemma GluedOne(buf: Bytes, body: Bytes)
    ensures Glued(buf, [body]) == Group(buf, body)
  {
    assert [body][1..] == [];
  }

  lemma {:induction false} FieldsGlued(buf: Bytes, fields: seq<Field>, terse: bool)
    ensures FieldsText(buf, fields, terse) == Glued(buf, AllBodies(fields, terse))
    decreases |fields|
  {
    if fields != [] {
      FieldGlued(buf, fields[0], terse);
      FieldsGlued(FieldText(buf, fields[0], terse), fields[1..], terse);
      GluedMore(buf, BodiesOf(fields[0], terse), AllBodies(fields[1..], terse));
    }
  }

  lemma {:induction false} FieldsRead(fields: seq<Field>, terse: bool) returns (parts: seq<seq<Item>>)
    ensures |parts| == |fields| && AllRead(AllBodies(fields, terse), Flat(parts))
    ensures forall i :: 0 <= i < |fields| ==> Shows(fields[i], terse, parts[i])
    decreases |fields|
  {
    parts := [];
    if fields != [] {
      var first := FieldReads(fields[0], terse);
      var rest := FieldsRead(fields[1..], terse);
      parts := [first] + rest;
      assert parts[1..] == rest;
      AllReadConcat(BodiesOf(fields[0], terse), first, AllBodies(fields[1..], terse), Flat(rest));
    }
  }

  lemma AllReadConcat(a: seq<Bytes>, xs: seq<Item>, b: seq<Bytes>, ys: seq<Item>)
    requires AllRead(a, xs) && AllRead(b, ys)
    ensures AllRead(a + b, xs + ys)
  {
    var bodies, items := a + b, xs + ys;
    forall i | 0 <= i < |bodies|
      ensures Reads(bodies[i], items[i])
    {
      if i < |a| {
        assert bodies[i] == a[i] && items[i] == xs[i];
      } else {
        assert bodies[i] == b[i - |a|] && items[i] == ys[i - |a|];
      }
    }
  }

  // ---------------------------------------------------------------- the header

  function HeaderBodies(e: Entry): seq<Bytes> {
    (if e.time.Some? then [e.time.value] else [])
    + ([Quoted(e.level)]
    + ((if e.name != [] then [Quoted(e.name)] else [])
    + ((if e.caller.Some? then [Quoted(e.caller.value)] else [])
    + (if e.message != [] then [Quoted(e.message)] else []))))
  }

  lemma GluedIf(buf: Bytes, present: bool, body: Bytes, rest: seq<Bytes>)
    ensures Glued(buf, (if present then [body] else []) + rest)
         == Glued(if present then Group(buf, body) else buf, rest)
  {
    if present {
      assert ([body] + rest)[1..] == rest;
    } else {
      assert [] + rest == rest;
    }
  }

  lemma GluedLast(buf: Bytes, present: bool, body: Bytes)
    ensures Glued(buf, if present then [body] else []) == if present then Group(buf, body) else buf
  {
    GluedIf(buf, present, body, []);
    assert (if present then [body] else []) + [] == if present then [body] else [];
  }

  lemma HeaderGlued(e: Entry)
    ensures Header(e) == Glued([], HeaderBodies(e))
  {
    var message := if e.message != [] then [Quoted(e.message)] else [];
    var caller := (if e.caller.Some? then [Quoted(e.caller.value)] else []) + message;
    var name := (if e.name != [] then [Quoted(e.name)] else []) + caller;
    var level := [Quoted(e.level)] + name;
    var h0 := if e.time.Some? then Group([], e.time.value) else [];
    GluedIf([], e.time.Some?, if e.time.Some? then e.time.value else [], level);
    GluedIf(h0, true, Quoted(e.level), name);
    var h1 := Group(h0, Quoted(e.level));
    GluedIf(h1, e.name != [], Quoted(e.name), caller);
    var h2 := if e.name != [] then Group(h1, Quoted(e.name)) else h1;
    GluedIf(h2, e.caller.Some?, if e.caller.Some? then Quoted(e.caller.value) else [], message);
    var h3 := if e.caller.Some? then Group(h2, Quoted(e.caller.value)) else h2;
    GluedLast(h3, e.message != [], Quoted(e.message));
  }

  lemma QuotedReads(v: Bytes)
    ensures Reads(Quoted(v), Value(Sanitized(v)))
  {
    QuotedIsToken(v);
    ValueReads(Quoted(v), Sanitized(v));
  }

  /** The header of an entry: time, level, name, caller and message, each present exactly when the entry has it. */
  ghost predicate HeaderShows(e: Entry, items: seq<Item>) {
    items == (if e.time.Some? then [Value(e.time.value)] else [])
           + ([Value(Sanitized(e.level))]
           + ((if e.name != [] then [Value(Sanitized(e.name))] else [])
           + ((if e.caller.Some? then [Value(Sanitized(e.caller.value))] else [])
           + (if e.message != [] then [Value(Sanitized(e.message))] else []))))
  }

  lemma HeaderReads(e: Entry) returns (items: seq<Item>)
    requires e.time.Some? ==> TimeText(e.time.value)
    ensures AllRead(HeaderBodies(e), items) && HeaderShows(e, items) && items != []
  {
    var messageBody := if e.message != [] then [Quoted(e.message)] else [];
    var message := if e.message != [] then [Value(Sanitized(e.message))] else [];
    QuotedReads(e.message);
    assert AllRead(messageBody, message);
    var callerBody := if e.caller.Some? then [Quoted(e.caller.value)] else [];
    var caller := if e.caller.Some? then [Value(Sanitized(e.caller.value))] else [];
    if e.caller.Some? {
      QuotedReads(e.caller.value);
    }
    assert AllRead(callerBody, caller);
    AllReadConcat(callerBody, caller, messageBody, message);
    var nameBody := if e.name != [] then [Quoted(e.name)] else [];
    var name := if e.name != [] then [Value(Sanitized(e.name))] else [];
    QuotedReads(e.name);
    assert AllRead(nameBody, name);
    AllReadConcat(nameBody, name, callerBody + messageBody, caller + message);
    QuotedReads(e.level);
    var rest := name + (caller + message);
    var restBody := nameBody + (callerBody + messageBody);
    AllReadConcat([Quoted(e.level)], [Value(Sanitized(e.level))], restBody, rest);
    var timeBody := if e.time.Some? then [e.time.value] else [];
    var time := if e.time.Some? then [Value(e.time.value)] else [];
    if e.time.Some? {
      TimeReads(e.time.value);
    }
    assert AllRead(timeBody, time);
    AllReadConcat(timeBody, time, [Quoted(e.level)] + restBody, [Value(Sanitized(e.level))] + rest);
    items := time + ([Value(Sanitized(e.level))] + rest);
  }

  // ---------------------------------------------------------------- the line

  /** Every item without braces after it, but for the last. */
  function Closing(items: seq<Item>, braces: nat): seq<Closed>
    requires items != []
  {
    if |items| == 1 then [Closed(items[0], braces)] else [Closed(items[0], 0)] + Closing(items[1..], braces)
  }

  lemma {:induction false} BracesCounted(n: nat, rest: Bytes)
    requires !Starts(rest, RBRACE)
    ensures CountBraces(Braces(n) + rest) == n && (Braces(n) + rest)[n..] == rest
  {
    var s := Braces(n) + rest;
    if n == 0 {
      assert s == rest;
    } else {
      assert s[0] == RBRACE && s[1..] == Braces(n - 1) + rest;
      BracesCounted(n - 1, rest);
    }
  }

  /** What comes after the braces: the line end, or a blank and more that reads. */
  ghost predicate Continues(rest: Bytes, more: seq<Closed>) {
    || (rest == [NEWLINE] && more == [])
    || (Starts(rest, SPACE) && ReadLine(rest[1..]) == Some(more))
  }

  lemma ReadOne(body: Bytes, item: Item, braces: nat, rest: Bytes, more: seq<Closed>)
    requires Reads(body, item) && Continues(rest, more)
    ensures ReadLine([LBRACKET] + body + [RBRACKET] + (Braces(braces) + rest)) == Some([Closed(item, braces)] + more)
  {
    var after := Braces(braces) + rest;
    var s := [LBRACKET] + body + [RBRACKET] + after;
    Bracketed(body, after);
    assert ReadsBefore(body, item, after);
    BracesCounted(braces, rest);
    LineStep(s, item, after, braces, rest, more);
  }

  lemma Bracketed(body: Bytes, after: Bytes)
    ensures var s := [LBRACKET] + body + [RBRACKET] + after;
            Starts(s, LBRACKET) && s[1..] == body + ([RBRACKET] + after)
  {
  }

  lemma LineStep(s: Bytes, item: Item, after: Bytes, braces: nat, rest: Bytes, more: seq<Closed>)
    requires Starts(s, LBRACKET) && ReadInside(s[1..]) == Some(Read(item, after))
    requires CountBraces(after) == braces && after[braces..] == rest && Continues(rest, more)
    ensures ReadLine(s) == Some([Closed(item, braces)] + more)
  {
    if rest == [NEWLINE] {
      assert !Starts(rest, SPACE);
      assert [Closed(item, braces)] + [] == [Closed(item, braces)];
    }
  }

  lemma {:induction false} ReadMany(bodies: seq<Bytes>, items: seq<Item>, braces: nat, rest: Bytes, more: seq<Closed>)
    requires bodies != [] && AllRead(bodies, items) && Continues(rest, more)
    ensures ReadLine([LBRACKET] + bodies[0] + [RBRACKET] + Following(bodies[1..]) + (Braces(braces) + rest))
         == Some(Closing(items, braces) + more)
    decreases |bodies|
  {
    if |bodies| == 1 {
      ReadOne(bodies[0], items[0], braces, rest, more);
      AloneStarts(bodies);
    } else {
      ReadMany(bodies[1..], items[1..], braces, rest, more);
      NextStarts(bodies, Braces(braces) + rest);
      var inner := [LBRACKET] + bodies[1..][0] + [RBRACKET] + Following(bodies[1..][1..]) + (Braces(braces) + rest);
      ReadNext(bodies[0], items[0], inner, Closing(items[1..], braces) + more);
      ClosingFirst(items, braces, more);
    }
  }

  lemma AloneStarts(bodies: seq<Bytes>)
    requires |bodies| == 1
    ensures [LBRACKET] + bodies[0] + [RBRACKET] + Following(bodies[1..]) == [LBRACKET] + bodies[0] + [RBRACKET]
  {
  }

  lemma ClosingFirst(items: seq<Item>, braces: nat, more: seq<Closed>)
    requires |items| > 1
    ensures Closing(items, braces) + more == [Closed(items[0], 0)] + (Closing(items[1..], braces) + more)
  {
  }

  lemma ReadNext(body: Bytes, item: Item, inner: Bytes, more: seq<Closed>)
    requires Reads(body, item) && ReadLine(inner) == Some(more)
    ensures ReadLine([LBRACKET] + body + [RBRACKET] + ([SPACE] + inner)) == Some([Closed(item, 0)] + more)
  {
    var next := [SPACE] + inner;
    assert next[1..] == inner;
    ReadOne(body, item, 0, next, more);
    assert Braces(0) + next == next;
  }

  lemma NextStarts(bodies: seq<Bytes>, tail: Bytes)
    requires |bodies| > 1
    ensures [LBRACKET] + bodies[0] + [RBRACKET] + Following(bodies[1..]) + tail
         == [LBRACKET] + bodies[0] + [RBRACKET]
            + ([SPACE] + ([LBRACKET] + bodies[1..][0] + [RBRACKET] + Following(bodies[1..][1..]) + tail))
  {
    var rest: seq<Bytes> := bodies[1..];
    NextAssoc([LBRACKET] + bodies[0] + [RBRACKET], rest[0], Following(rest[1..]), tail);
  }

  lemma NextAssoc(first: Bytes, second: Bytes, more: Bytes, tail: Bytes)
    ensures first + ([SPACE, LBRACKET] + second + [RBRACKET] + more) + tail
         == first + ([SPACE] + ([LBRACKET] + second + [RBRACKET] + more + tail))
  {
  }

  lemma {:induction false} SameCount(fields: seq<Field>)
    ensures Namespaces(fields) == OpenedBy(fields)
    decreases |fields|
  {
    if fields != [] {
      var n := |fields| - 1;
      SameCount(fields[..n]);
      assert fields == fields[..n] + [fields[n]];
      FieldsSnoc([], fields[..n], fields[n], true);
    }
  }

  /** The items of the stack, if there is one. */
  function StackItems(stack: Bytes): seq<Closed> {
    if stack == [] then [] else [Closed(KeyValue(Sanitized(Ascii("stack")), Sanitized(stack)), 0)]
  }

  lemma StackReads(stack: Bytes) returns (rest: Bytes)
    ensures Continues(rest, StackItems(stack))
    ensures forall buf :: buf != [] ==> LineEnd(buf, stack) == buf + rest
  {
    AsciiTexts();
    if stack == [] {
      rest := [NEWLINE];
    } else {
      var body := Pair(STACK, Quoted(stack));
      QuotedPairReads(STACK, stack);
      var inner := [LBRACKET] + body + [RBRACKET] + (Braces(0) + [NEWLINE]);
      ReadOne(body, KeyValue(Sanitized(STACK), Sanitized(stack)), 0, [NEWLINE], []);
      rest := [SPACE] + inner;
      assert rest[1..] == inner;
      forall buf: Bytes | buf != []
        ensures LineEnd(buf, stack) == buf + rest
      {
        StackGlued(buf, body);
      }
      var c := Closed(KeyValue(Sanitized(STACK), Sanitized(stack)), 0);
      assert [c] + [] == [c];
    }
  }

  lemma StackGlued(buf: Bytes, body: Bytes)
    requires buf != []
    ensures Group(buf, body) + [NEWLINE] == buf + ([SPACE] + ([LBRACKET] + body + [RBRACKET] + (Braces(0) + [NEWLINE])))
  {
  }

  lemma LineShape(bodies: seq<Bytes>, e: Entry, fields: seq<Field>, terse: bool)
    requires bodies == HeaderBodies(e) + AllBodies(fields, terse)
    ensures bodies != []
    ensures LineBody(LineStart([], e), fields, 0, terse)
         == [LBRACKET] + bodies[0] + [RBRACKET] + Following(bodies[1..]) + Braces(Namespaces(fields))
  {
    HeaderGlued(e);
    FieldsGlued(Header(e), fields, terse);
    GluedMore([], HeaderBodies(e), AllBodies(fields, terse));
    GluedFollows(Group([], bodies[0]), bodies[1..]);
  }

  /** Every line reads back: the header, then for each field the items that show it, the braces of the namespaces
      after the last, and the stack. */
  lemma LineReadsBack(e: Entry, fields: seq<Field>, terse: bool)
    returns (header: seq<Item>, parts: seq<seq<Item>>)
    requires e.time.Some? ==> TimeText(e.time.value)
    ensures HeaderShows(e, header) && header != []
    ensures |parts| == |fields| && forall i :: 0 <= i < |fields| ==> Shows(fields[i], terse, parts[i])
    ensures ReadLine(Line([], 0, e, fields, terse))
         == Some(Closing(header + Flat(parts), OpenedBy(fields)) + StackItems(e.stack))
  {
    header := HeaderReads(e);
    parts := FieldsRead(fields, terse);
    var bodies := HeaderBodies(e) + AllBodies(fields, terse);
    AllReadConcat(HeaderBodies(e), header, AllBodies(fields, terse), Flat(parts));
    LineShape(bodies, e, fields, terse);
    SameCount(fields);
    var rest := StackReads(e.stack);
    var n := OpenedBy(fields);
    var front := [LBRACKET] + bodies[0] + [RBRACKET] + Following(bodies[1..]);
    ReadMany(bodies, header + Flat(parts), n, rest, StackItems(e.stack));
    assert front + Braces(n) != [];
    JoinAssoc(front, Braces(n), rest);
  }

  /** The same when part of the fields come from successive contexts. */
  lemma ContextLineReadsBack(contexts: seq<seq<Field>>, e: Entry, fields: seq<Field>, terse: bool)
    returns (header: seq<Item>, parts: seq<seq<Item>>)
    requires e.time.Some? ==> TimeText(e.time.value)
    ensures HeaderShows(e, header) && header != []
    ensures var all := Concat(contexts) + fields; var c := ExtendAll(Context([], 0), contexts, terse);
      && |parts| == |all| && (forall i :: 0 <= i < |all| ==> Shows(all[i], terse, parts[i]))
      && ReadLine(Line(c.buf, c.open, e, fields, terse))
         == Some(Closing(header + Flat(parts), OpenedBy(all)) + StackItems(e.stack))
  {
    SplitAnywhere(contexts, e, fields, terse);
    header, parts := LineReadsBack(e, Concat(contexts) + fields, terse);
  }

  /** A text is quoted exactly when it holds a blank or control byte, a backslash, a quote, a bracket or `=`. */
  lemma QuotedIff(v: Bytes)
    ensures Quoted(v) != [] && Quoted(v)[0] == 34 <==>
            exists i :: && 0 <= i < |v|
                        && (v[i] <= 32 || v[i] == 92 || v[i] == 34 || v[i] == 91 || v[i] == 93 || v[i] == 61)
  {
    if NeedsQuotes(v) {
      assert Quoted(v)[0] == QUOTE;
      var i :| 0 <= i < |v| && Special(v[i]);
    } else {
      BareEscaped(v);
      assert Quoted(v) == Escaped(v);
      forall i | 0 <= i < |v|
        ensures !(v[i] <= 32 || v[i] == 92 || v[i] == 34 || v[i] == 91 || v[i] == 93 || v[i] == 61)
      {
        assert !Special(v[i]);
      }
    }
  }
}
