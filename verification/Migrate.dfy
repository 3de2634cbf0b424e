/** The migration runner of lib/sqlutil/api_migrate.go: files are applied in name order, each in one
    transaction, and a file is skipped once the checksum of its content is recorded. Any run may be cut off
    at any apply or record step, before or after that step took effect. */
module Migrate {
  import R = Runs
  import L = Lexicographic

  // ---------------------------------------------------------------- splitting a file

  /** unicode.IsSpace: the characters with the White_Space property. */
  predicate IsSpace(c: char) {
    var n := c as int;
    || 9 <= n <= 13 || n == 0x20 || n == 0x85 || n == 0xA0 || n == 0x1680 || 0x2000 <= n <= 0x200A
    || n == 0x2028 || n == 0x2029 || n == 0x202F || n == 0x205F || n == 0x3000
  }

  function TrimLeft(s: string): (r: string)
    ensures r == "" || !IsSpace(r[0])
    ensures forall c :: c in r ==> c in s
  {
    if s == "" then "" else if IsSpace(s[0]) then TrimLeft(s[1..]) else s
  }

  function TrimRight(s: string): (r: string)
    ensures r == "" || !IsSpace(r[|r| - 1])
    ensures r <= s
  {
    if s == "" then "" else if IsSpace(s[|s| - 1]) then TrimRight(s[..|s| - 1]) else s
  }

  /** strings.TrimSpace */
  function TrimSpace(s: string): (r: string)
    ensures r == "" || (!IsSpace(r[0]) && !IsSpace(r[|r| - 1]))
    ensures forall c :: c in r ==> c in s
  {
    TrimRight(TrimLeft(s))
  }

  /** strings.Split on one character. */
  function Split(s: string, sep: char): (r: seq<string>)
    ensures r != []
  {
    if s == "" then [""]
    else
      var rest := Split(s[1..], sep);
      if s[0] == sep then [""] + rest else [[s[0]] + rest[0]] + rest[1..]
  }

  /** The pieces, put together again with the separator. */
  function Joined(parts: seq<string>, sep: char): string {
    if parts == [] then "" else if |parts| == 1 then parts[0] else parts[0] + [sep] + Joined(parts[1..], sep)
  }

  lemma {:induction false} SplitJoin(s: string, sep: char)
    ensures Joined(Split(s, sep), sep) == s
  {
    if s != "" {
      SplitJoin(s[1..], sep);
      var rest := Split(s[1..], sep);
      var r := Split(s, sep);
      if s[0] == sep {
        assert r[1..] == rest;
      } else if |rest| == 1 {
        assert r == [[s[0]] + rest[0]];
      } else {
        assert r[1..] == rest[1..];
        assert Joined(rest, sep) == rest[0] + [sep] + Joined(rest[1..], sep);
      }
    }
  }

  lemma {:induction false} SplitClean(s: string, sep: char, i: nat)
    requires i < |Split(s, sep)|
    ensures sep !in Split(s, sep)[i]
  {
    if s != "" {
      var rest := Split(s[1..], sep);
      if s[0] == sep {
        if i > 0 {
          SplitClean(s[1..], sep, i - 1);
        }
      } else {
        SplitClean(s[1..], sep, i);
      }
    }
  }

  predicate IsComment(line: string) {
    TrimSpace(line) == "" || "--" <= TrimSpace(line) || "#" <= TrimSpace(line)
  }

  predicate HasSQL(block: string) {
    exists i :: 0 <= i < |Split(block, '\n')| && !IsComment(Split(block, '\n')[i])
  }

  /** What one block gives. */
  function KeptBlock(b: string): seq<string> {
    var block := TrimSpace(b);
    if block != "" && HasSQL(block) then [block] else []
  }

  function Kept(blocks: seq<string>): seq<string> {
    if blocks == [] then [] else KeptBlock(blocks[0]) + Kept(blocks[1..])
  }

  function Statements(data: string): seq<string> {
    Kept(Split(data, ';'))
  }

  /** Every statement is trimmed, not empty, free of semicolons, and has a line that is no comment. */
  lemma StatementsClean(data: string)
    ensures forall t :: t in Statements(data) ==> t != "" && TrimSpaceIs(t) && ';' !in t && HasSQL(t)
  {
    var blocks := Split(data, ';');
    forall i | 0 <= i < |blocks|
      ensures ';' !in blocks[i]
    {
      SplitClean(data, ';', i);
    }
    KeptClean(blocks);
  }

  predicate TrimSpaceIs(t: string) {
    t == "" || (!IsSpace(t[0]) && !IsSpace(t[|t| - 1]))
  }

  lemma {:induction false} KeptClean(blocks: seq<string>)
    requires forall i :: 0 <= i < |blocks| ==> ';' !in blocks[i]
    ensures forall t :: t in Kept(blocks) ==> t != "" && TrimSpaceIs(t) && ';' !in t && HasSQL(t)
  {
    if blocks != [] {
      KeptClean(blocks[1..]);
    }
  }

  lemma {:induction false} KeptSnoc(blocks: seq<string>, b: string)
    ensures Kept(blocks + [b]) == Kept(blocks) + KeptBlock(b)
  {
    if blocks == [] {
      assert [] + [b] == [b] && [b][1..] == [];
      assert Kept([b]) == KeptBlock(b) + [];
    } else {
      assert (blocks + [b])[0] == blocks[0] && (blocks + [b])[1..] == blocks[1..] + [b];
      KeptSnoc(blocks[1..], b);
      JoinedParts(KeptBlock(blocks[0]), Kept(blocks[1..]), KeptBlock(b));
    }
  }

  lemma JoinedParts(a: seq<string>, b: seq<string>, c: seq<string>)
    ensures a + (b + c) == a + b + c
  {
  }

  /** The inner loop of splitStatements. */
  method FindSQL(block: string) returns (hasSQL: bool)
    ensures hasSQL == HasSQL(block)
  {
    var lines := Split(block, '\n');
    hasSQL := false;
    for j := 0 to |lines|
      invariant !hasSQL && forall k :: 0 <= k < j ==> IsComment(lines[k])
    {
      var trimmed := TrimSpace(lines[j]);
      if trimmed == "" || "--" <= trimmed || "#" <= trimmed {
        continue;
      }
      assert !IsComment(lines[j]);
      return true;
    }
  }

  lemma KeptAt(blocks: seq<string>, i: nat)
    requires i < |blocks|
    ensures Kept(blocks[..i + 1]) == Kept(blocks[..i]) + KeptBlock(blocks[i])
  {
    assert blocks[..i + 1] == blocks[..i] + [blocks[i]];
    KeptSnoc(blocks[..i], blocks[i]);
  }

  /** splitStatements */
  method SplitStatements(data: string) returns (stmts: seq<string>)
    ensures stmts == Statements(data)
    ensures exists blocks, pos :: IsSplit(data, blocks) && Chosen(blocks, pos, stmts)
  {
    ghost var blocks0, pos0 := StatementsExact(data);
    stmts := [];
    var blocks := Split(data, ';');
    for i := 0 to |blocks|
      invariant stmts == Kept(blocks[..i])
    {
      KeptAt(blocks, i);
      var block := TrimSpace(blocks[i]);
      if block == "" {
        continue;
      }
      var hasSQL := FindSQL(block);
      if hasSQL {
        stmts := stmts + [block];
      }
    }
    assert blocks[..|blocks|] == blocks;
  }

  // ---------------------------------------------------------------- what splitting means

  predicate Blank(s: string) {
    forall c :: c in s ==> IsSpace(c)
  }

  /** r is s with the white space cut off both ends, and nothing else. */
  ghost predicate TrimOf(s: string, r: string) {
    && (exists a, b :: s == a + r + b && Blank(a) && Blank(b))
    && (r != "" ==> !IsSpace(r[0]) && !IsSpace(r[|r| - 1]))
  }

  lemma {:induction false} TrimLeftCuts(s: string) returns (a: string)
    ensures s == a + TrimLeft(s) && Blank(a)
  {
    if s == "" || !IsSpace(s[0]) {
      a := "";
    } else {
      var rest := TrimLeftCuts(s[1..]);
      a := [s[0]] + rest;
      assert s == [s[0]] + s[1..];
    }
  }

  lemma {:induction false} TrimRightCuts(s: string) returns (b: string)
    ensures s == TrimRight(s) + b && Blank(b)
  {
    if s == "" || !IsSpace(s[|s| - 1]) {
      b := "";
    } else {
      var n := |s| - 1;
      var rest := TrimRightCuts(s[..n]);
      b := rest + [s[n]];
      assert s == s[..n] + [s[n]];
    }
  }

  lemma TrimSpaceCuts(s: string)
    ensures TrimOf(s, TrimSpace(s))
  {
    var a := TrimLeftCuts(s);
    var b := TrimRightCuts(TrimLeft(s));
    assert s == a + TrimSpace(s) + b;
  }

  /** There is only one such text. */
  lemma {:induction false} TrimUnique(s: string, r: string)
    requires TrimOf(s, r)
    ensures r == TrimSpace(s)
  {
    var a, b :| s == a + r + b && Blank(a) && Blank(b);
    if r == "" {
      BlankTrims(s);
    } else {
      LeftOf(a, r + b);
      assert a + r + b == a + (r + b);
      RightOf(r, b);
    }
  }

  lemma {:induction false} BlankTrims(s: string)
    requires Blank(s)
    ensures TrimLeft(s) == ""
  {
    if s != "" {
      assert s[0] in s;
      assert forall c :: c in s[1..] ==> c in s;
      BlankTrims(s[1..]);
    }
  }

  lemma {:induction false} LeftOf(a: string, rest: string)
    requires Blank(a) && rest != "" && !IsSpace(rest[0])
    ensures TrimLeft(a + rest) == rest
  {
    if a == "" {
      assert a + rest == rest;
    } else {
      assert a[0] in a;
      assert forall c :: c in a[1..] ==> c in a;
      assert (a + rest)[0] == a[0] && (a + rest)[1..] == a[1..] + rest;
      LeftOf(a[1..], rest);
    }
  }

  lemma {:induction false} RightOf(r: string, b: string)
    requires r != "" && !IsSpace(r[|r| - 1]) && Blank(b)
    ensures TrimRight(r + b) == r
  {
    if b == "" {
      assert r + b == r;
    } else {
      var n := |b| - 1;
      assert b[n] in b;
      assert forall c :: c in b[..n] ==> c in b;
      assert (r + b)[|r + b| - 1] == b[n] && (r + b)[..|r + b| - 1] == r + b[..n];
      RightOf(r, b[..n]);
    }
  }

  /** A piece of s between two separators, or between one and an end. */
  ghost predicate IsPiece(s: string, sep: char, piece: string) {
    exists u, v :: Around(s, sep, u, piece, v)
  }

  ghost predicate Around(s: string, sep: char, u: string, piece: string, v: string) {
    && s == u + piece + v && sep !in piece
    && (u != "" ==> u[|u| - 1] == sep) && (v != "" ==> v[0] == sep)
  }

  lemma AroundAfter(c: char, s: string, sep: char, u: string, piece: string, v: string)
    requires Around(s, sep, u, piece, v) && (u != "" || c == sep)
    ensures Around([c] + s, sep, [c] + u, piece, v)
  {
    assert [c] + s == [c] + u + piece + v;
  }

  lemma AroundFirst(c: char, s: string, sep: char, piece: string, v: string)
    requires Around(s, sep, "", piece, v) && c != sep
    ensures Around([c] + s, sep, "", [c] + piece, v)
  {
    assert [c] + s == "" + ([c] + piece) + v;
  }

  lemma {:induction false} PartAround(s: string, sep: char, i: nat) returns (u: string, v: string)
    requires i < |Split(s, sep)|
    ensures Around(s, sep, u, Split(s, sep)[i], v) && (i == 0 <==> u == "")
  {
    u, v := "", "";
    if s != "" {
      assert s == [s[0]] + s[1..];
      if s[0] == sep {
        if i == 0 {
          v := s;
        } else {
          u, v := PartAround(s[1..], sep, i - 1);
          AroundAfter(s[0], s[1..], sep, u, Split(s[1..], sep)[i - 1], v);
          u := [s[0]] + u;
        }
      } else {
        u, v := PartAround(s[1..], sep, i);
        if i > 0 {
          AroundAfter(s[0], s[1..], sep, u, Split(s[1..], sep)[i], v);
          u := [s[0]] + u;
        } else {
          AroundFirst(s[0], s[1..], sep, Split(s[1..], sep)[0], v);
        }
      }
    }
  }

  lemma {:induction false} FirstPart(piece: string, v: string, sep: char)
    requires sep !in piece && (v != "" ==> v[0] == sep)
    ensures Split(piece + v, sep)[0] == piece
  {
    if piece == "" {
      assert piece + v == v;
    } else {
      assert piece[0] in piece;
      assert forall c :: c in piece[1..] ==> c in piece;
      assert (piece + v)[0] == piece[0] && (piece + v)[1..] == piece[1..] + v;
      FirstPart(piece[1..], v, sep);
      assert piece == [piece[0]] + piece[1..];
    }
  }

  lemma {:induction false} AroundPart(s: string, sep: char, u: string, piece: string, v: string)
    requires Around(s, sep, u, piece, v)
    ensures if u == "" then piece == Split(s, sep)[0] else piece in Split(s, sep)[1..]
    decreases |u|
  {
    if u == "" {
      assert s == piece + v;
      FirstPart(piece, v, sep);
    } else {
      assert s[0] == u[0] && s[1..] == u[1..] + piece + v;
      assert u[1..] != "" ==> u[1..][|u[1..]| - 1] == u[|u| - 1];
      AroundPart(s[1..], sep, u[1..], piece, v);
      var rest := Split(s[1..], sep);
      if u[0] == sep {
        assert Split(s, sep)[1..] == rest;
      } else {
        assert Split(s, sep)[1..] == rest[1..];
      }
    }
  }

  /** The parts of a split are exactly the pieces. */
  lemma SplitPieces(s: string, sep: char, piece: string)
    ensures piece in Split(s, sep) <==> IsPiece(s, sep, piece)
  {
    if piece in Split(s, sep) {
      var i :| 0 <= i < |Split(s, sep)| && Split(s, sep)[i] == piece;
      var u, v := PartAround(s, sep, i);
    }
    if IsPiece(s, sep, piece) {
      var u, v :| Around(s, sep, u, piece, v);
      AroundPart(s, sep, u, piece, v);
    }
  }

  /** Position k is the first of its line that is not white space, and no comment starts there. */
  predicate SQLAt(line: string, k: int) {
    && 0 <= k < |line| && (forall i :: 0 <= i < k ==> IsSpace(line[i])) && !IsSpace(line[k])
    && line[k] != '#' && !(line[k] == '-' && k + 1 < |line| && line[k + 1] == '-')
  }

  lemma LineIsSQL(line: string)
    ensures !IsComment(line) <==> exists k :: SQLAt(line, k)
  {
    var a := TrimLeftCuts(line);
    var b := TrimRightCuts(TrimLeft(line));
    var r := TrimSpace(line);
    assert line == a + (r + b);
    if r == "" {
      assert forall i :: 0 <= i < |line| ==> line[i] in line && IsSpace(line[i]);
    } else {
      var k := |a|;
      assert line[k] == r[0];
      assert forall i :: 0 <= i < k ==> line[i] == a[i] && a[i] in a;
      if |r| > 1 {
        assert line[k + 1] == r[1];
      } else if k + 1 < |line| {
        assert line[k + 1] == b[0] && b[0] in b;
      }
      assert !IsComment(line) <==> SQLAt(line, k);
      assert forall j :: SQLAt(line, j) ==> j == k;
    }
  }

  /** A block with a line of SQL. */
  ghost predicate IsStatement(block: string) {
    exists line, k :: IsPiece(block, '\n', line) && SQLAt(line, k)
  }

  lemma StatementHasSQL(block: string)
    ensures HasSQL(block) <==> IsStatement(block)
  {
    var lines := Split(block, '\n');
    if HasSQL(block) {
      var i :| 0 <= i < |lines| && !IsComment(lines[i]);
      LineIsSQL(lines[i]);
      SplitPieces(block, '\n', lines[i]);
      var k :| SQLAt(lines[i], k);
      assert IsPiece(block, '\n', lines[i]) && SQLAt(lines[i], k);
    }
    if IsStatement(block) {
      var line, k :| IsPiece(block, '\n', line) && SQLAt(line, k);
      SplitPieces(block, '\n', line);
      LineIsSQL(line);
    }
  }

  /** Block i with white space cut off its ends is the statement r. */
  ghost predicate GivesStatement(block: string, r: string) {
    TrimOf(block, r) && IsStatement(r)
  }

  predicate Increasing(pos: seq<nat>) {
    forall k, l :: 0 <= k < l < |pos| ==> pos[k] < pos[l]
  }

  ghost predicate Gives(blocks: seq<string>, pos: seq<nat>, stmts: seq<string>) {
    && |pos| == |stmts|
    && forall k :: 0 <= k < |pos| ==> pos[k] < |blocks| && GivesStatement(blocks[pos[k]], stmts[k])
  }

  ghost predicate Complete(blocks: seq<string>, pos: seq<nat>) {
    forall i, r :: 0 <= i < |blocks| && GivesStatement(blocks[i], r) ==> i in pos
  }

  /** `pos` lists, in order, exactly the blocks that give a statement; `stmts` are these. */
  ghost predicate Chosen(blocks: seq<string>, pos: seq<nat>, stmts: seq<string>) {
    Increasing(pos) && Gives(blocks, pos, stmts) && Complete(blocks, pos)
  }

  lemma {:induction false} KeptChosen(blocks: seq<string>) returns (pos: seq<nat>)
    ensures Chosen(blocks, pos, Kept(blocks))
    decreases |blocks|
  {
    pos := [];
    if blocks != [] {
      var n := |blocks| - 1;
      var before := KeptChosen(blocks[..n]);
      assert blocks == blocks[..n] + [blocks[n]];
      KeptOne(blocks[..n], blocks[n]);
      var block := TrimSpace(blocks[n]);
      OneBlock(blocks[n]);
      if IsStatement(block) {
        pos := before + [n];
        ChosenMore(blocks[..n], before, Kept(blocks[..n]), blocks[n], block);
      } else {
        pos := before;
        ChosenSame(blocks[..n], before, Kept(blocks[..n]), blocks[n]);
      }
    }
  }

  lemma KeptOne(blocks: seq<string>, b: string)
    ensures Kept(blocks + [b]) == Kept(blocks) + (if IsStatement(TrimSpace(b)) then [TrimSpace(b)] else [])
  {
    KeptSnoc(blocks, b);
    StatementHasSQL(TrimSpace(b));
    EmptyNoStatement();
  }

  lemma OneBlock(b: string)
    ensures forall r :: GivesStatement(b, r) <==> r == TrimSpace(b) && IsStatement(r)
  {
    TrimSpaceCuts(b);
    forall r | TrimOf(b, r)
      ensures r == TrimSpace(b)
    {
      TrimUnique(b, r);
    }
  }

  lemma EmptyNoStatement()
    ensures !IsStatement("")
  {
  }

  lemma ChosenMore(blocks: seq<string>, pos: seq<nat>, stmts: seq<string>, b: string, r: string)
    requires Chosen(blocks, pos, stmts) && GivesStatement(b, r)
    ensures Chosen(blocks + [b], pos + [|blocks|], stmts + [r])
  {
    var all, more := blocks + [b], pos + [|blocks|];
    forall i, q | 0 <= i < |all| && GivesStatement(all[i], q)
      ensures i in more
    {
      if i < |blocks| {
        assert all[i] == blocks[i];
        assert i in pos;
      } else {
        assert more[|pos|] == i;
      }
    }
  }

  lemma ChosenSame(blocks: seq<string>, pos: seq<nat>, stmts: seq<string>, b: string)
    requires Chosen(blocks, pos, stmts) && forall r :: !GivesStatement(b, r)
    ensures Chosen(blocks + [b], pos, stmts)
  {
    var all := blocks + [b];
    forall i, q | 0 <= i < |all| && GivesStatement(all[i], q)
      ensures i in pos
    {
      assert i < |blocks| && all[i] == blocks[i];
    }
  }

  /** The blocks between the semicolons of a file. */
  ghost predicate IsSplit(data: string, blocks: seq<string>) {
    blocks != [] && Joined(blocks, ';') == data && forall i :: 0 <= i < |blocks| ==> ';' !in blocks[i]
  }

  /** The statements of a file are, in order, exactly its semicolon-separated blocks, white space cut off their ends,
      that have a line which after its leading white space is not empty and starts with neither -- nor #. */
  lemma StatementsExact(data: string) returns (blocks: seq<string>, pos: seq<nat>)
    ensures IsSplit(data, blocks) && Chosen(blocks, pos, Statements(data))
  {
    blocks := Split(data, ';');
    SplitJoin(data, ';');
    forall i | 0 <= i < |blocks|
      ensures ';' !in blocks[i]
    {
      SplitClean(data, ';', i);
    }
    pos := KeptChosen(blocks);
  }

  // ---------------------------------------------------------------- what the runs do

  /** The .sql files in the order of sort.Strings, their content, and the checksum in use. */
  datatype Directory = Directory(files: seq<string>, content: map<string, string>, checksum: string -> string)

  predicate IsListing(d: Directory) {
    && (forall i, j :: 0 <= i < j < |d.files| ==> L.Less(d.files[i], d.files[j]))
    && (forall i :: 0 <= i < |d.files| ==> d.files[i] in d.content)
  }

  /** The schema_migrations table and the (file, content) pairs whose transaction was committed. */
  datatype State = State(table: map<string, string>, committed: set<(string, string)>)

  datatype Event = Committed(pos: nat) | Recorded(pos: nat)

  /** File `pos` is recorded with the checksum of its present content. */
  predicate Current(table: map<string, string>, d: Directory, pos: nat)
    requires IsListing(d) && pos < |d.files|
  {
    d.files[pos] in table && table[d.files[pos]] == d.checksum(d.content[d.files[pos]])
  }

  predicate CurrentBefore(table: map<string, string>, d: Directory, pos: nat)
    requires IsListing(d) && pos <= |d.files|
  {
    forall q :: 0 <= q < pos ==> Current(table, d, q)
  }

  /** A file is committed only while it is not recorded and every earlier file is; it is recorded only
      after its content was committed, or if it holds no statement. */
  ghost predicate Next(s: State, e: Event, s': State, d: Directory)
    requires IsListing(d)
  {
    && e.pos < |d.files| && CurrentBefore(s.table, d, e.pos)
    && var f := d.files[e.pos];
       match e
       case Committed(pos) => !Current(s.table, d, pos) && s' == s.(committed := s.committed + {(f, d.content[f])})
       case Recorded(pos) =>
         && ((f, d.content[f]) in s.committed || Statements(d.content[f]) == [])
         && s' == s.(table := s.table[f := d.checksum(d.content[f])])
  }

  ghost function NextIn(d: Directory): (State, Event, State) -> bool
    requires IsListing(d)
  {
    (s, e, s') => Next(s, e, s', d)
  }

  class Database {
    var table: map<string, string>
    ghost var committed: set<(string, string)>
    /** The states since a chosen start, linked by the events that took effect. */
    ghost var states: seq<State>
    ghost var events: seq<Event>

    ghost function View(): State
      reads this
    {
      State(table, committed)
    }

    ghost predicate Valid(d: Directory)
      reads this
    {
      IsListing(d) && R.IsRun(states, events, NextIn(d)) && states[|events|] == View()
    }

    /** A database as some earlier runs left it. */
    constructor (table: map<string, string>, d: Directory)
      requires IsListing(d)
      ensures this.table == table && events == [] && states == [State(table, {})] && Valid(d)
    {
      this.table, committed, states, events := table, {}, [State(table, {})], [];
    }

    /** The history starts again at the present state, for a directory that may have changed. */
    ghost method Begin(d: Directory)
      requires IsListing(d)
      modifies `states, `events
      ensures events == [] && states == [View()] && Valid(d)
    {
      states, events := [View()], [];
    }

    ghost method Note(e: Event, d: Directory)
      requires IsListing(d) && R.IsRun(states, events, NextIn(d)) && Next(states[|events|], e, View(), d)
      modifies `states, `events
      ensures events == old(events) + [e] && states == old(states) + [View()] && Valid(d)
    {
      R.Extend(states, events, NextIn(d), e, View());
      states, events := states + [View()], events + [e];
    }

    /** applySQL for file `pos`: one transaction; an error, or a cut, may come after the commit. */
    method Apply(d: Directory, pos: nat) returns (ok: bool)
      requires Valid(d) && pos < |d.files| && CurrentBefore(table, d, pos) && !Current(table, d, pos)
      modifies `committed, `states, `events
      ensures Valid(d)
      ensures events == old(events) || events == old(events) + [Committed(pos)]
      ensures old(committed) <= committed
      ensures ok ==> (d.files[pos], d.content[d.files[pos]]) in committed || Statements(d.content[d.files[pos]]) == []
    {
      var stmts := SplitStatements(d.content[d.files[pos]]);
      if |stmts| == 0 {
        return true;
      }
      if * {
        return false;
      }
      committed := committed + {(d.files[pos], d.content[d.files[pos]])};
      Note(Committed(pos), d);
      if * {
        return false;
      }
      ok := true;
    }

    /** upsertMigration: a REPLACE; an error, or a cut, may come after it took effect. */
    method Record(d: Directory, pos: nat) returns (ok: bool)
      requires Valid(d) && pos < |d.files| && CurrentBefore(table, d, pos)
      requires (d.files[pos], d.content[d.files[pos]]) in committed || Statements(d.content[d.files[pos]]) == []
      modifies `table, `states, `events
      ensures Valid(d)
      ensures forall q :: 0 <= q < |d.files| && q != pos ==> (Current(table, d, q) <==> Current(old(table), d, q))
      ensures events == old(events) || events == old(events) + [Recorded(pos)]
      ensures ok ==> Current(table, d, pos)
    {
      if * {
        return false;
      }
      OthersStay(table, d, pos);
      table := table[d.files[pos] := d.checksum(d.content[d.files[pos]])];
      Note(Recorded(pos), d);
      if * {
        return false;
      }
      ok := true;
    }

    /** One round of the loop of Migrate. */
    method MigrateFile(d: Directory, pos: nat, applied: map<string, string>) returns (ok: bool)
      requires Valid(d) && pos < |d.files| && CurrentBefore(table, d, pos)
      requires Current(applied, d, pos) <==> Current(table, d, pos)
      modifies this
      ensures Valid(d) && old(events) <= events && old(committed) <= committed
      ensures ok ==> CurrentBefore(table, d, pos + 1) && Settled(applied, committed, d, pos)
      ensures forall q :: 0 <= q < |d.files| && q != pos ==> (Current(table, d, q) <==> Current(old(table), d, q))
      ensures old(Current(table, d, pos)) ==> ok && View() == old(View()) && events == old(events)
    {
      var filename := d.files[pos];
      var cs := d.checksum(d.content[filename]);
      if filename in applied && applied[filename] == cs {
        assert Current(applied, d, pos);
        return true;
      }
      assert !Current(applied, d, pos);
      ok := Apply(d, pos);
      if !ok {
        return;
      }
      ok := Record(d, pos);
    }

    /** The loop of Migrate. A run that returns nil leaves every file recorded with the checksum of its content, and
        the content of every file that was not so recorded before is committed; a run that starts with every file
        recorded commits nothing and succeeds. */
    method Migrate(d: Directory) returns (ok: bool)
      requires Valid(d)
      modifies this
      ensures Valid(d) && old(events) <= events
      ensures ok ==> forall q :: 0 <= q < |d.files| ==>
        d.files[q] in table && table[d.files[q]] == d.checksum(d.content[d.files[q]])
      ensures ok ==> forall q :: 0 <= q < |d.files| ==>
        var f := d.files[q];
        || (f in old(table) && old(table)[f] == d.checksum(d.content[f]))
        || (f, d.content[f]) in committed || Statements(d.content[f]) == []
      ensures (forall q :: 0 <= q < |d.files| ==>
                 d.files[q] in old(table) && old(table)[d.files[q]] == d.checksum(d.content[d.files[q]])) ==>
        ok && View() == old(View()) && events == old(events)
    {
      var applied := table;
      for pos := 0 to |d.files|
        invariant Valid(d) && old(events) <= events && CurrentBefore(table, d, pos)
        invariant forall q :: pos <= q < |d.files| ==> (Current(applied, d, q) <==> Current(table, d, q))
        invariant SettledBefore(applied, committed, d, pos)
        invariant old(CurrentBefore(table, d, |d.files|)) ==> View() == old(View()) && events == old(events)
      {
        ghost var before := committed;
        ok := MigrateFile(d, pos, applied);
        if !ok {
          RecordedAll(old(table), d);
          return;
        }
        SettledMore(applied, before, committed, d, pos);
      }
      RecordedAll(old(table), d);
      RecordedAll(table, d);
      AllSettled(applied, committed, d);
      ok := true;
    }
  }

  /** The file was recorded with its present checksum before, or its content is committed, or there is nothing in
      it to commit. */
  ghost predicate Settled(applied: map<string, string>, committed: set<(string, string)>, d: Directory, q: nat)
    requires IsListing(d) && q < |d.files|
  {
    var f := d.files[q];
    Current(applied, d, q) || (f, d.content[f]) in committed || Statements(d.content[f]) == []
  }

  ghost predicate SettledBefore(applied: map<string, string>, committed: set<(string, string)>, d: Directory, pos: nat)
    requires IsListing(d) && pos <= |d.files|
  {
    forall q :: 0 <= q < pos ==> Settled(applied, committed, d, q)
  }

  lemma SettledMore(applied: map<string, string>, before: set<(string, string)>, committed: set<(string, string)>,
                    d: Directory, pos: nat)
    requires IsListing(d) && pos < |d.files| && before <= committed
    requires SettledBefore(applied, before, d, pos) && Settled(applied, committed, d, pos)
    ensures SettledBefore(applied, committed, d, pos + 1)
  {
    forall q | 0 <= q < pos + 1
      ensures Settled(applied, committed, d, q)
    {
      if q < pos {
        SettledStays(applied, before, committed, d, q);
      }
    }
  }

  lemma SettledStays(applied: map<string, string>, before: set<(string, string)>, committed: set<(string, string)>,
                     d: Directory, q: nat)
    requires IsListing(d) && q < |d.files| && before <= committed && Settled(applied, before, d, q)
    ensures Settled(applied, committed, d, q)
  {
  }

  lemma AllSettled(applied: map<string, string>, committed: set<(string, string)>, d: Directory)
    requires IsListing(d) && SettledBefore(applied, committed, d, |d.files|)
    ensures forall q :: 0 <= q < |d.files| ==>
      var f := d.files[q];
      || (f in applied && applied[f] == d.checksum(d.content[f]))
      || (f, d.content[f]) in committed || Statements(d.content[f]) == []
  {
    forall q | 0 <= q < |d.files|
      ensures
        var f := d.files[q];
        || (f in applied && applied[f] == d.checksum(d.content[f]))
        || (f, d.content[f]) in committed || Statements(d.content[f]) == []
    {
      assert Settled(applied, committed, d, q);
    }
  }

  lemma RecordedAll(table: map<string, string>, d: Directory)
    requires IsListing(d)
    ensures CurrentBefore(table, d, |d.files|) <==>
      forall q :: 0 <= q < |d.files| ==>
        d.files[q] in table && table[d.files[q]] == d.checksum(d.content[d.files[q]])
  {
    if CurrentBefore(table, d, |d.files|) {
      forall q | 0 <= q < |d.files|
        ensures d.files[q] in table && table[d.files[q]] == d.checksum(d.content[d.files[q]])
      {
        assert Current(table, d, q);
      }
    }
  }

  lemma OthersStay(table: map<string, string>, d: Directory, pos: nat)
    requires IsListing(d) && pos < |d.files|
    ensures var t := table[d.files[pos] := d.checksum(d.content[d.files[pos]])];
            forall q :: 0 <= q < |d.files| && q != pos ==> (Current(t, d, q) <==> Current(table, d, q))
  {
    forall q | 0 <= q < |d.files| && q != pos
      ensures d.files[q] != d.files[pos]
    {
      L.Irreflexive(d.files[q]);
      assert L.Less(d.files[q], d.files[pos]) || L.Less(d.files[pos], d.files[q]);
    }
  }

  // ---------------------------------------------------------------- over any sequence of runs

  /** Every checksum recorded since the start is that of the file's content, and that content was committed
      or holds no statement. */
  ghost predicate Justified(s: State, d: Directory, start: State) {
    forall f :: f in s.table ==>
      || (f in start.table && s.table[f] == start.table[f])
      || (f in d.content && s.table[f] == d.checksum(d.content[f]) &&
          ((f, d.content[f]) in s.committed || Statements(d.content[f]) == []))
  }

  lemma RecordedWasCommitted(states: seq<State>, events: seq<Event>, d: Directory, i: nat)
    requires IsListing(d) && R.IsRun(states, events, NextIn(d)) && i <= |events|
    ensures Justified(states[i], d, states[0])
  {
    var inv := (s: State) => Justified(s, d, states[0]);
    forall s, e, s' | inv(s) && NextIn(d)(s, e, s')
      ensures inv(s')
    {
      JustifiedStep(s, e, s', d, states[0]);
    }
    R.HoldsAt(states, events, NextIn(d), inv, (e: Event) => true, 0, i);
  }

  lemma JustifiedStep(s: State, e: Event, s': State, d: Directory, start: State)
    requires IsListing(d) && Justified(s, d, start) && Next(s, e, s', d)
    ensures Justified(s', d, start)
  {
  }

  /** Once recorded with its present content a file stays so. */
  lemma CurrentStays(states: seq<State>, events: seq<Event>, d: Directory, pos: nat, i: nat, j: nat)
    requires IsListing(d) && R.IsRun(states, events, NextIn(d)) && i <= j <= |events| && pos < |d.files|
    requires Current(states[i].table, d, pos)
    ensures Current(states[j].table, d, pos)
  {
    var inv := (s: State) => Current(s.table, d, pos);
    R.HoldsAt(states, events, NextIn(d), inv, (e: Event) => true, i, j);
  }

  /** Commits follow the order of the file names over all the runs together, and once a file has been
      recorded it is never committed again, so a repeated commit means its record did not take effect. */
  lemma CommitsInOrder(states: seq<State>, events: seq<Event>, d: Directory, i: nat, j: nat)
    requires IsListing(d) && R.IsRun(states, events, NextIn(d)) && i < j < |events|
    requires events[j].Committed?
    ensures events[i].Committed? ==> events[i].pos <= events[j].pos
    ensures events[i].Recorded? ==> events[i].pos < events[j].pos
  {
    assert R.Linked(states, events, NextIn(d), i);
    assert R.Linked(states, events, NextIn(d), j);
    var p, q := events[i].pos, events[j].pos;
    if q < p {
      CurrentStays(states, events, d, q, i, j);
    } else if q == p && events[i].Recorded? {
      CurrentStays(states, events, d, p, i + 1, j);
    }
  }
}
