/** The bracketed text encoder of lib/zlog and the core that carries a pre-encoded context. */
module LogEncoder {
  import opened Options
  import opened LogBytes

  /** A zap field as the encoder receives it. An error carries its message and, if the error is a
      formatter, its verbose text. */
  datatype Field =
    | StringField(key: Bytes, text: Bytes)
    | ByteStringField(key: Bytes, text: Bytes)
    | BoolField(key: Bytes, flag: bool)
    | IntField(key: Bytes, n: int)
    | NamespaceField(key: Bytes)
    | SkipField
    | ErrorField(key: Bytes, basic: Bytes, verbose: Option<Bytes>)

  /** The parts of an entry that are printed; `time` and `caller` are absent when disabled or undefined. */
  datatype Entry = Entry(time: Option<Bytes>, level: Bytes, name: Bytes, caller: Option<Bytes>, message: Bytes,
                         stack: Bytes)

  // ---------------------------------------------------------------- what is appended

  function Separator(buf: Bytes): Bytes {
    if buf == [] then []
    else
      var last := buf[|buf| - 1];
      if last == LBRACE || last == LBRACKET || last == COLON || last == COMMA || last == SPACE || last == EQUALS then []
      else [COMMA]
  }

  function Digits(n: nat): Bytes {
    if n < 10 then [48 + n] else Digits(n / 10) + [48 + n % 10]
  }

  function Decimal(n: int): Bytes {
    if n < 0 then [45] + Digits(-n) else Digits(n)
  }

  function BoolText(b: bool): Bytes {
    if b then [116, 114, 117, 101] else [102, 97, 108, 115, 101]
  }

  /** The bytes of "Verbose" and of "stack". */
  const VERBOSE: Bytes := [86, 101, 114, 98, 111, 115, 101]
  const STACK: Bytes := [115, 116, 97, 99, 107]

  /** One bracketed group; a blank separates it from what is already there. */
  function Group(buf: Bytes, body: Bytes): Bytes {
    Opened(buf) + body + [RBRACKET]
  }

  function Opened(buf: Bytes): Bytes {
    if buf == [] then [LBRACKET] else buf + [SPACE, LBRACKET]
  }

  function Pair(key: Bytes, text: Bytes): Bytes {
    Quoted(key) + [EQUALS] + text
  }

  function FieldBody(f: Field): Bytes
    requires !f.ErrorField?
  {
    match f
    case StringField(key, text) => Pair(key, Quoted(text))
    case ByteStringField(key, text) => Pair(key, Quoted(text))
    case BoolField(key, flag) => Pair(key, BoolText(flag))
    case IntField(key, n) => Pair(key, Decimal(n))
    case NamespaceField(key) => Pair(key, [LBRACE])
    case SkipField => []
  }

  function FieldText(buf: Bytes, f: Field, terse: bool): Bytes {
    if f.ErrorField? then
      var b := Group(buf, Pair(f.key, Quoted(f.basic)));
      if !terse && f.verbose.Some? && f.verbose.value != f.basic then
        Group(b, Pair(f.key + VERBOSE, Quoted(f.verbose.value)))
      else b
    else Group(buf, FieldBody(f))
  }

  function FieldsText(buf: Bytes, fields: seq<Field>, terse: bool): Bytes
    decreases |fields|
  {
    if fields == [] then buf else FieldsText(FieldText(buf, fields[0], terse), fields[1..], terse)
  }

  function Namespaces(fields: seq<Field>): nat {
    if fields == [] then 0 else (if fields[0].NamespaceField? then 1 else 0) + Namespaces(fields[1..])
  }

  function Braces(n: nat): Bytes {
    seq(n, i => RBRACE)
  }

  function Header(e: Entry): (h: Bytes)
    ensures h != []
  {
    var h := if e.time.Some? then Group([], e.time.value) else [];
    var h := Group(h, Quoted(e.level));
    var h := if e.name != [] then Group(h, Quoted(e.name)) else h;
    var h := if e.caller.Some? then Group(h, Quoted(e.caller.value)) else h;
    if e.message != [] then Group(h, Quoted(e.message)) else h
  }

  /** The header and the context. */
  function LineStart(context: Bytes, e: Entry): Bytes {
    if context == [] then Header(e) else Header(e) + [SPACE] + context
  }

  /** The fields and the closing braces. */
  function LineBody(buf: Bytes, fields: seq<Field>, open: nat, terse: bool): Bytes {
    FieldsText(buf, fields, terse) + Braces(open + Namespaces(fields))
  }

  /** The stack and the line ending. */
  function LineEnd(buf: Bytes, stack: Bytes): Bytes {
    if stack == [] then buf + [NEWLINE] else Group(buf, Pair(STACK, Quoted(stack))) + [NEWLINE]
  }

  function Line(context: Bytes, open: nat, e: Entry, fields: seq<Field>, terse: bool): Bytes {
    LineEnd(LineBody(LineStart(context, e), fields, open, terse), e.stack)
  }

  lemma {:induction false} FieldsSnoc(buf: Bytes, fields: seq<Field>, f: Field, terse: bool)
    ensures FieldsText(buf, fields + [f], terse) == FieldText(FieldsText(buf, fields, terse), f, terse)
    ensures Namespaces(fields + [f]) == Namespaces(fields) + (if f.NamespaceField? then 1 else 0)
    decreases |fields|
  {
    if fields == [] {
      assert [f][1..] == [];
      assert [] + [f] == [f];
    } else {
      assert (fields + [f])[1..] == fields[1..] + [f];
      FieldsSnoc(FieldText(buf, fields[0], terse), fields[1..], f, terse);
    }
  }

  lemma FieldsAt(buf: Bytes, fields: seq<Field>, i: nat, terse: bool)
    requires i < |fields|
    ensures FieldsText(buf, fields[..i + 1], terse) == FieldText(FieldsText(buf, fields[..i], terse), fields[i], terse)
    ensures Namespaces(fields[..i + 1]) == Namespaces(fields[..i]) + (if fields[i].NamespaceField? then 1 else 0)
  {
    assert fields[..i + 1] == fields[..i] + [fields[i]];
    FieldsSnoc(buf, fields[..i], fields[i], terse);
  }

  lemma QuotesAt(s: Bytes, i: nat)
    requires i < |s| && Special(s[i])
    ensures NeedsQuotes(s)
  {
  }

  // ---------------------------------------------------------------- the encoder

  class TextEncoder {
    var buf: Bytes
    var openNamespaces: nat
    const disableErrorVerbose: bool

    constructor (disableErrorVerbose: bool)
      ensures buf == [] && openNamespaces == 0 && this.disableErrorVerbose == disableErrorVerbose
    {
      buf, openNamespaces, this.disableErrorVerbose := [], 0, disableErrorVerbose;
    }

    method TryAddRuneSelf(b: Byte) returns (added: bool)
      modifies `buf
      ensures added == (b < RUNE_SELF)
      ensures buf == old(buf) + if b < RUNE_SELF then EscapedSelf(b) else []
    {
      if b >= RUNE_SELF {
        return false;
      }
      if 0x20 <= b && b != BACKSLASH && b != QUOTE {
        buf := buf + [b];
        return true;
      }
      if b == BACKSLASH || b == QUOTE {
        buf := buf + [BACKSLASH];
        buf := buf + [b];
      } else if b == NEWLINE {
        buf := buf + [BACKSLASH, 110];
      } else if b == RETURN {
        buf := buf + [BACKSLASH, 114];
      } else if b == TAB {
        buf := buf + [BACKSLASH, 116];
      } else {
        buf := buf + [BACKSLASH, 117, 48, 48];
        buf := buf + [HexDigit(b / 16)];
        buf := buf + [HexDigit(b % 16)];
      }
      added := true;
    }

    method TryAddRuneError(r: Rune) returns (added: bool)
      modifies `buf
      ensures added == (r == Rune(RUNE_ERROR, 1))
      ensures buf == old(buf) + if added then ESCAPED_ERROR else []
    {
      if r.value == RUNE_ERROR && r.size == 1 {
        buf := buf + ESCAPED_ERROR;
        return true;
      }
      added := false;
    }

    /** The body of the loops of safeAddString and safeAddByteString: the character at i, and how many bytes it
        takes. */
    method AddRune(s: Bytes, i: nat) returns (n: nat)
      requires i < |s|
      modifies `buf
      ensures buf == old(buf) + EscapedUnit(s[i..]) && n == UnitSize(s[i..])
    {
      var self := TryAddRuneSelf(s[i]);
      if self {
        return 1;
      }
      var r := DecodeRune(s[i..]);
      var bad := TryAddRuneError(r);
      if bad {
        return 1;
      }
      buf := buf + s[i..i + r.size];
      assert s[i..i + r.size] == s[i..][..r.size];
      n := r.size;
    }

    /** safeAddString */
    method SafeAddString(s: Bytes)
      modifies `buf
      ensures buf == old(buf) + Escaped(s)
    {
      ghost var b := buf;
      var i := 0;
      Started(b, s);
      while i < |s|
        invariant 0 <= i <= |s|
        invariant Remains(b, s, buf, i)
      {
        ghost var before := buf;
        var n := AddRune(s, i);
        RemainsStep(b, s, before, buf, i);
        i := i + n;
      }
      Done(b, s, buf);
    }

    /** safeAddByteString */
    method SafeAddByteString(s: Bytes)
      modifies `buf
      ensures buf == old(buf) + Escaped(s)
    {
      ghost var b := buf;
      var i := 0;
      Started(b, s);
      while i < |s|
        invariant 0 <= i <= |s|
        invariant Remains(b, s, buf, i)
      {
        ghost var before := buf;
        var n := AddRune(s, i);
        RemainsStep(b, s, before, buf, i);
        i := i + n;
      }
      Done(b, s, buf);
    }

    /** needDoubleQuotes */
    static method NeedDoubleQuotes(s: Bytes) returns (need: bool)
      ensures need == NeedsQuotes(s)
    {
      var i := 0;
      while i < |s|
        invariant 0 <= i <= |s|
        invariant forall k :: 0 <= k < i ==> !Special(s[k])
      {
        var b := s[i];
        if b <= 0x20 {
          QuotesAt(s, i);
          return true;
        }
        if b == BACKSLASH || b == QUOTE || b == LBRACKET || b == RBRACKET || b == EQUALS {
          QuotesAt(s, i);
          return true;
        }
        i := i + 1;
      }
      need := false;
    }

    method SafeAddStringWithQuote(s: Bytes)
      modifies `buf
      ensures buf == old(buf) + Quoted(s)
    {
      var need := NeedDoubleQuotes(s);
      if !need {
        SafeAddString(s);
        return;
      }
      buf := buf + [QUOTE];
      SafeAddString(s);
      buf := buf + [QUOTE];
      QuotedAssoc(old(buf), Escaped(s));
    }

    method AddElementSeparator()
      modifies `buf
      ensures buf == old(buf) + Separator(old(buf))
    {
      var last := |buf| - 1;
      if last < 0 {
        return;
      }
      var b := buf[last];
      if b == LBRACE || b == LBRACKET || b == COLON || b == COMMA || b == SPACE || b == EQUALS {
        return;
      }
      buf := buf + [COMMA];
    }

    method AddKey(key: Bytes)
      modifies `buf
      ensures buf == old(buf) + Separator(old(buf)) + Quoted(key) + [EQUALS]
    {
      AddElementSeparator();
      SafeAddStringWithQuote(key);
      buf := buf + [EQUALS];
    }

    method AppendString(s: Bytes)
      modifies `buf
      ensures buf == old(buf) + Separator(old(buf)) + Quoted(s)
    {
      AddElementSeparator();
      SafeAddStringWithQuote(s);
    }

    method AppendByteString(s: Bytes)
      modifies `buf
      ensures buf == old(buf) + Separator(old(buf)) + Quoted(s)
    {
      AddElementSeparator();
      ghost var b := buf;
      var need := NeedDoubleQuotes(s);
      if !need {
        SafeAddByteString(s);
        return;
      }
      buf := buf + [QUOTE];
      SafeAddByteString(s);
      buf := buf + [QUOTE];
      QuotedAssoc(b, Escaped(s));
    }

    method AppendRaw(text: Bytes)
      modifies `buf
      ensures buf == old(buf) + Separator(old(buf)) + text
    {
      AddElementSeparator();
      buf := buf + text;
    }

    method AddString(key: Bytes, text: Bytes)
      modifies `buf
      ensures buf == old(buf) + Separator(old(buf)) + Pair(key, Quoted(text))
    {
      ghost var b := buf;
      AddKey(key);
      AppendString(text);
      PairAssoc(b, Separator(b), Quoted(key), Quoted(text));
    }

    method AddByteString(key: Bytes, text: Bytes)
      modifies `buf
      ensures buf == old(buf) + Separator(old(buf)) + Pair(key, Quoted(text))
    {
      ghost var b := buf;
      AddKey(key);
      AppendByteString(text);
      PairAssoc(b, Separator(b), Quoted(key), Quoted(text));
    }

    /** AddBool and AddInt64: a key and text that needs no quotes. */
    method AddRaw(key: Bytes, text: Bytes)
      modifies `buf
      ensures buf == old(buf) + Separator(old(buf)) + Pair(key, text)
    {
      ghost var b := buf;
      AddKey(key);
      AppendRaw(text);
      PairAssoc(b, Separator(b), Quoted(key), text);
    }

    method OpenNamespace(key: Bytes)
      modifies `buf, `openNamespaces
      ensures buf == old(buf) + Separator(old(buf)) + Pair(key, [LBRACE])
      ensures openNamespaces == old(openNamespaces) + 1
    {
      ghost var b := buf;
      AddKey(key);
      buf := buf + [LBRACE];
      openNamespaces := openNamespaces + 1;
      PairAssoc(b, Separator(b), Quoted(key), [LBRACE]);
    }

    method BeginQuoteField()
      modifies `buf
      ensures buf == Opened(old(buf)) && Separator(buf) == []
    {
      if |buf| > 0 {
        buf := buf + [SPACE];
      }
      buf := buf + [LBRACKET];
    }

    method EndQuoteField()
      modifies `buf
      ensures buf == old(buf) + [RBRACKET]
    {
      buf := buf + [RBRACKET];
    }

    /** Field.AddTo for the kinds modelled. */
    method AddTo(f: Field)
      requires !f.ErrorField? && Separator(buf) == []
      modifies `buf, `openNamespaces
      ensures buf == old(buf) + FieldBody(f)
      ensures openNamespaces == old(openNamespaces) + (if f.NamespaceField? then 1 else 0)
    {
      JoinAssoc(buf, [], []);
      match f
      case StringField(key, text) => AddString(key, text);
      case ByteStringField(key, text) => AddByteString(key, text);
      case BoolField(key, flag) => AddRaw(key, BoolText(flag));
      case IntField(key, n) => AddRaw(key, Decimal(n));
      case NamespaceField(key) => OpenNamespace(key);
      case SkipField =>
    }

    /** A string pair in brackets of its own. */
    method AddGroup(key: Bytes, text: Bytes)
      modifies `buf
      ensures buf == Group(old(buf), Pair(key, Quoted(text)))
    {
      BeginQuoteField();
      JoinAssoc(buf, [], []);
      AddString(key, text);
      EndQuoteField();
    }

    method EncodeError(f: Field)
      requires f.ErrorField?
      modifies `buf
      ensures buf == FieldText(old(buf), f, disableErrorVerbose)
    {
      AddGroup(f.key, f.basic);
      if disableErrorVerbose {
        return;
      }
      if f.verbose.Some? {
        if f.verbose.value != f.basic {
          AddGroup(f.key + VERBOSE, f.verbose.value);
        }
      }
    }

    /** One round of addFields. */
    method AddOne(f: Field)
      modifies `buf, `openNamespaces
      ensures buf == FieldText(old(buf), f, disableErrorVerbose)
      ensures openNamespaces == old(openNamespaces) + (if f.NamespaceField? then 1 else 0)
    {
      if f.ErrorField? {
        EncodeError(f);
        return;
      }
      BeginQuoteField();
      AddTo(f);
      EndQuoteField();
    }

    method AddFields(fields: seq<Field>)
      modifies `buf, `openNamespaces
      ensures buf == FieldsText(old(buf), fields, disableErrorVerbose)
      ensures openNamespaces == old(openNamespaces) + Namespaces(fields)
    {
      for i := 0 to |fields|
        invariant buf == FieldsText(old(buf), fields[..i], disableErrorVerbose)
        invariant openNamespaces == old(openNamespaces) + Namespaces(fields[..i])
      {
        FieldsAt(old(buf), fields, i, disableErrorVerbose);
        AddOne(fields[i]);
      }
      assert fields[..|fields|] == fields;
    }

    method CloseOpenNamespaces()
      modifies `buf
      ensures buf == old(buf) + Braces(openNamespaces)
    {
      for i := 0 to openNamespaces
        invariant buf == old(buf) + Braces(i)
      {
        buf := buf + [RBRACE];
      }
    }

    /** cloned: the same settings and namespaces, an empty buffer. */
    method Cloned() returns (clone: TextEncoder)
      ensures fresh(clone) && clone.buf == [] && clone.openNamespaces == openNamespaces
      ensures clone.disableErrorVerbose == disableErrorVerbose
    {
      clone := new TextEncoder(disableErrorVerbose);
      clone.openNamespaces := openNamespaces;
    }

    method Clone() returns (clone: TextEncoder)
      ensures fresh(clone) && clone.buf == buf && clone.openNamespaces == openNamespaces
      ensures clone.disableErrorVerbose == disableErrorVerbose
    {
      clone := Cloned();
      clone.buf := clone.buf + buf;
    }

    method AppendGroup(text: Bytes)
      modifies `buf
      ensures buf == Group(old(buf), Quoted(text))
    {
      BeginQuoteField();
      JoinAssoc(buf, [], []);
      AppendString(text);
      EndQuoteField();
    }

    method WriteHeader(e: Entry)
      requires buf == []
      modifies `buf
      ensures buf == Header(e)
    {
      if e.time.Some? {
        BeginQuoteField();
        buf := buf + e.time.value;
        EndQuoteField();
        assert buf == Group([], e.time.value);
      }
      AppendGroup(e.level);
      if e.name != [] {
        AppendGroup(e.name);
      }
      if e.caller.Some? {
        AppendGroup(e.caller.value);
      }
      if e.message != [] {
        AppendGroup(e.message);
      }
    }

    method WriteStart(context: Bytes, e: Entry)
      requires buf == []
      modifies `buf
      ensures buf == LineStart(context, e)
    {
      WriteHeader(e);
      if |context| > 0 {
        buf := buf + [SPACE];
        buf := buf + context;
      }
    }

    method WriteBody(fields: seq<Field>)
      modifies `buf, `openNamespaces
      ensures buf == LineBody(old(buf), fields, old(openNamespaces), disableErrorVerbose)
    {
      AddFields(fields);
      CloseOpenNamespaces();
    }

    method WriteEnd(stack: Bytes)
      modifies `buf
      ensures buf == LineEnd(old(buf), stack)
    {
      if stack != [] {
        AddGroup(STACK, stack);
      }
      buf := buf + [NEWLINE];
    }

    /** EncodeEntry leaves the encoder, and so its context, as it was. */
    method EncodeEntry(e: Entry, fields: seq<Field>) returns (line: Bytes)
      ensures line == Line(buf, openNamespaces, e, fields, disableErrorVerbose)
    {
      var final := Cloned();
      final.WriteStart(buf, e);
      final.WriteBody(fields);
      final.WriteEnd(e.stack);
      line := final.buf;
    }
  }

  /** With `now` appended so far for the first i bytes, what remains completes `before + Escaped(s)`. */
  ghost predicate Remains(before: Bytes, s: Bytes, now: Bytes, i: nat) {
    i <= |s| && before + Escaped(s) == now + Escaped(s[i..])
  }

  lemma Started(b: Bytes, s: Bytes)
    ensures Remains(b, s, b, 0)
  {
    assert s[0..] == s;
  }

  lemma RemainsStep(b: Bytes, s: Bytes, before: Bytes, after: Bytes, i: nat)
    requires Remains(b, s, before, i) && i < |s| && after == before + EscapedUnit(s[i..])
    ensures i + UnitSize(s[i..]) <= |s| && Remains(b, s, after, i + UnitSize(s[i..]))
  {
    EscapedStep(before, s, i, after);
  }

  lemma Done(b: Bytes, s: Bytes, now: Bytes)
    requires Remains(b, s, now, |s|)
    ensures now == b + Escaped(s)
  {
    assert s[|s|..] == [];
    JoinAssoc(now, [], []);
  }

  lemma EscapedStep(before: Bytes, s: Bytes, i: nat, after: Bytes)
    requires i < |s| && after == before + EscapedUnit(s[i..])
    ensures before + Escaped(s[i..]) == after + Escaped(s[i + UnitSize(s[i..])..])
  {
    var rest := s[i..];
    assert rest[UnitSize(rest)..] == s[i + UnitSize(rest)..];
    JoinAssoc(before, EscapedUnit(rest), Escaped(rest[UnitSize(rest)..]));
  }

  lemma JoinAssoc(a: Bytes, b: Bytes, c: Bytes)
    ensures a + b + c == a + (b + c) && a + [] == a
  {
  }

  lemma QuotedAssoc(b: Bytes, e: Bytes)
    ensures b + [QUOTE] + e + [QUOTE] == b + ([QUOTE] + e + [QUOTE])
  {
  }

  lemma PairAssoc(b: Bytes, sep: Bytes, key: Bytes, text: Bytes)
    ensures var keyed := b + sep + key + [EQUALS];
            keyed + Separator(keyed) + text == b + sep + (key + [EQUALS] + text) == keyed + text
  {
  }

  // ---------------------------------------------------------------- the core

  class TextIOCore {
    const enc: TextEncoder

    constructor (enc: TextEncoder)
      ensures this.enc == enc
    {
      this.enc := enc;
    }

    /** With: a core whose encoder holds the fields already encoded; this core is untouched. */
    method With(fields: seq<Field>) returns (c: TextIOCore)
      ensures fresh(c) && fresh(c.enc)
      ensures c.enc.buf == FieldsText(enc.buf, fields, enc.disableErrorVerbose)
      ensures c.enc.openNamespaces == enc.openNamespaces + Namespaces(fields)
      ensures c.enc.disableErrorVerbose == enc.disableErrorVerbose
    {
      var clone := enc.Clone();
      c := new TextIOCore(clone);
      clone.AddFields(fields);
    }

    method Write(e: Entry, fields: seq<Field>) returns (line: Bytes)
      ensures line == Line(enc.buf, enc.openNamespaces, e, fields, enc.disableErrorVerbose)
    {
      line := enc.EncodeEntry(e, fields);
    }
  }

  // ---------------------------------------------------------------- contexts

  datatype Context = Context(buf: Bytes, open: nat)

  /** The context after one With. */
  function Extend(c: Context, fields: seq<Field>, terse: bool): Context {
    Context(FieldsText(c.buf, fields, terse), c.open + Namespaces(fields))
  }

  /** The context after several. */
  function ExtendAll(c: Context, parts: seq<seq<Field>>, terse: bool): Context
    decreases |parts|
  {
    if parts == [] then c else ExtendAll(Extend(c, parts[0], terse), parts[1..], terse)
  }

  function Concat(parts: seq<seq<Field>>): seq<Field> {
    if parts == [] then [] else parts[0] + Concat(parts[1..])
  }

  lemma {:induction false} FieldsConcat(buf: Bytes, xs: seq<Field>, ys: seq<Field>, terse: bool)
    ensures FieldsText(buf, xs + ys, terse) == FieldsText(FieldsText(buf, xs, terse), ys, terse)
    ensures Namespaces(xs + ys) == Namespaces(xs) + Namespaces(ys)
    decreases |xs|
  {
    if xs == [] {
      assert xs + ys == ys;
    } else {
      assert (xs + ys)[0] == xs[0] && (xs + ys)[1..] == xs[1..] + ys;
      FieldsConcat(FieldText(buf, xs[0], terse), xs[1..], ys, terse);
    }
  }

  lemma GroupPrefix(p: Bytes, b: Bytes, body: Bytes)
    requires b != []
    ensures Group(p + b, body) == p + Group(b, body) && Group(b, body) != []
  {
  }

  lemma FieldPrefix(p: Bytes, b: Bytes, f: Field, terse: bool)
    requires b != []
    ensures FieldText(p + b, f, terse) == p + FieldText(b, f, terse) && FieldText(b, f, terse) != []
  {
    if f.ErrorField? {
      var body := Pair(f.key, Quoted(f.basic));
      GroupPrefix(p, b, body);
      if !terse && f.verbose.Some? && f.verbose.value != f.basic {
        GroupPrefix(p, Group(b, body), Pair(f.key + VERBOSE, Quoted(f.verbose.value)));
      }
    } else {
      GroupPrefix(p, b, FieldBody(f));
    }
  }

  lemma {:induction false} FieldsPrefix(p: Bytes, b: Bytes, fields: seq<Field>, terse: bool)
    requires b != []
    ensures FieldsText(p + b, fields, terse) == p + FieldsText(b, fields, terse)
    ensures FieldsText(b, fields, terse) != []
    decreases |fields|
  {
    if fields != [] {
      FieldPrefix(p, b, fields[0], terse);
      FieldsPrefix(p, FieldText(b, fields[0], terse), fields[1..], terse);
    }
  }

  lemma GroupFirst(h: Bytes, body: Bytes)
    requires h != []
    ensures Group(h, body) == h + [SPACE] + Group([], body) && Group([], body) != []
  {
  }

  lemma FieldFirst(h: Bytes, f: Field, terse: bool)
    requires h != []
    ensures FieldText(h, f, terse) == h + [SPACE] + FieldText([], f, terse) && FieldText([], f, terse) != []
  {
    if f.ErrorField? {
      var body := Pair(f.key, Quoted(f.basic));
      GroupFirst(h, body);
      if !terse && f.verbose.Some? && f.verbose.value != f.basic {
        GroupPrefix(h + [SPACE], Group([], body), Pair(f.key + VERBOSE, Quoted(f.verbose.value)));
      }
    } else {
      GroupFirst(h, FieldBody(f));
    }
  }

  /** Encoding after a header is the header, a blank, and the encoding afresh. */
  lemma {:induction false} FieldsAfter(h: Bytes, fields: seq<Field>, terse: bool)
    requires h != []
    ensures var t := FieldsText([], fields, terse);
            FieldsText(h, fields, terse) == h + (if t == [] then [] else [SPACE] + t) && (t == [] <==> fields == [])
  {
    if fields != [] {
      FieldFirst(h, fields[0], terse);
      var b := FieldText([], fields[0], terse);
      FieldsPrefix(h + [SPACE], b, fields[1..], terse);
      JoinAssoc(h, [SPACE], FieldsText(b, fields[1..], terse));
    } else {
      JoinAssoc(h, [], []);
    }
  }

  lemma {:induction false} ExtendAllConcat(c: Context, parts: seq<seq<Field>>, terse: bool)
    ensures ExtendAll(c, parts, terse) == Extend(c, Concat(parts), terse)
    decreases |parts|
  {
    if parts != [] {
      ExtendAllConcat(Extend(c, parts[0], terse), parts[1..], terse);
      FieldsConcat(c.buf, parts[0], Concat(parts[1..]), terse);
    }
  }

  /** However a list of fields is split into successive With calls and call-time fields, the line is the
      same, byte for byte, as when all the fields are passed at once. */
  lemma SplitAnywhere(parts: seq<seq<Field>>, e: Entry, fields: seq<Field>, terse: bool)
    ensures var c := ExtendAll(Context([], 0), parts, terse);
            Line(c.buf, c.open, e, fields, terse) == Line([], 0, e, Concat(parts) + fields, terse)
  {
    ExtendAllConcat(Context([], 0), parts, terse);
    BodySplit(Concat(parts), e, fields, terse);
  }

  lemma StartAfter(xs: seq<Field>, e: Entry, terse: bool)
    ensures LineStart(FieldsText([], xs, terse), e) == FieldsText(Header(e), xs, terse)
  {
    var t := FieldsText([], xs, terse);
    FieldsAfter(Header(e), xs, terse);
    JoinAssoc(Header(e), [SPACE], t);
  }

  lemma BodySplit(xs: seq<Field>, e: Entry, ys: seq<Field>, terse: bool)
    ensures LineBody(LineStart(FieldsText([], xs, terse), e), ys, Namespaces(xs), terse)
         == LineBody(Header(e), xs + ys, 0, terse)
  {
    StartAfter(xs, e, terse);
    FieldsConcat(Header(e), xs, ys, terse);
  }
}
