/** `initDatabase` and `migrateData`: the schema text cut into statements,
    the statements run one by one, and the one-off copy of the JSON data
    file into empty tables. */
module InitDatabase {
  import opened Wrappers
  import Text
  import Seqs
  import opened Store
  import Catalog

  // ---------------------------------------------------------------------
  // Splitting the schema: `schemaSQL.split(/;\s*\n/)`
  // ---------------------------------------------------------------------

  /** Scanning the white space from `j` on: the position just after the
      last line feed seen, or `last` if there is none. */
  function NewlineEnd(s: string, j: nat, last: Option<nat>): (r: Option<nat>)
    decreases |s| - j
    ensures last.Some? ==> r.Some?
    ensures r.Some? ==> r == last || j < r.value <= |s|
  {
    if j < |s| && Text.IsSpace(s[j]) then
      NewlineEnd(s, j + 1, if s[j] == '\n' then Some(j + 1) else last)
    else last
  }

  /** The length of the match of `/;\s*\n/` that starts at `i`, if one does:
      the `;`, then the white space after it up to and including the last
      line feed in it, as the greedy `\s*` backtracks to. */
  function MatchAt(s: string, i: nat): (n: Option<nat>)
    ensures n.Some? ==> i < |s| && 2 <= n.value <= |s| - i
  {
    if i < |s| && s[i] == ';' then
      match NewlineEnd(s, i + 1, None)
      case None => None
      case Some(e) => Some(e - i)
    else None
  }

  /** The text `t` a separator match consists of. */
  predicate IsSeparator(t: string) {
    |t| >= 2 && t[0] == ';' && t[|t| - 1] == '\n' && Text.AllSpace(t[1..])
  }

  /** The leftmost match at or after `i`. */
  function FirstMatch(s: string, i: nat): (r: Option<nat>)
    requires i <= |s|
    decreases |s| - i
    ensures r.Some? ==> i <= r.value < |s| && MatchAt(s, r.value).Some?
  {
    if i == |s| then None
    else if MatchAt(s, i).Some? then Some(i)
    else FirstMatch(s, i + 1)
  }

  /** No match starts between `i` and the one `FirstMatch` finds. */
  lemma {:induction false} FirstMatchLeftmost(s: string, i: nat, j: nat)
    decreases |s| - i
    requires i <= j < |s|
    requires FirstMatch(s, i).None? || j < FirstMatch(s, i).value
    ensures MatchAt(s, j).None?
  {
    if j > i && MatchAt(s, i).None? {
      FirstMatchLeftmost(s, i + 1, j);
    }
  }

  /** `s.split(/;\s*\n/)`: the pieces between successive matches. */
  function Split(s: string): (pieces: seq<string>)
    decreases |s|
    ensures |pieces| >= 1
  {
    match FirstMatch(s, 0)
    case None => [s]
    case Some(i) => [s[..i]] + Split(s[i + MatchAt(s, i).value..])
  }

  /** The matched separators, in the same order. */
  function Separators(s: string): (seps: seq<string>)
    decreases |s|
  {
    match FirstMatch(s, 0)
    case None => []
    case Some(i) => [s[i..i + MatchAt(s, i).value]] + Separators(s[i + MatchAt(s, i).value..])
  }

  /** Pieces and separators, alternately. */
  function Interleave(pieces: seq<string>, seps: seq<string>): string
    requires |pieces| == |seps| + 1
  {
    if |seps| == 0 then pieces[0]
    else pieces[0] + seps[0] + Interleave(pieces[1..], seps[1..])
  }

  /** What the scan covers is white space ending in a line feed. */
  lemma {:induction false} NewlineEndShape(s: string, start: nat, j: nat, last: Option<nat>)
    decreases |s| - j
    requires start <= j <= |s| && Text.AllSpace(s[start..j])
    requires last.Some? ==> start < last.value <= j && s[last.value - 1] == '\n'
    ensures var r := NewlineEnd(s, j, last);
      r.Some? ==> start < r.value <= |s| && s[r.value - 1] == '\n' && Text.AllSpace(s[start..r.value])
  {
    if j < |s| && Text.IsSpace(s[j]) {
      assert s[start..j + 1] == s[start..j] + [s[j]];
      NewlineEndShape(s, start, j + 1, if s[j] == '\n' then Some(j + 1) else last);
    } else if last.Some? {
      assert s[start..last.value] == s[start..j][..last.value - start];
    }
  }

  /** A match is a separator. */
  lemma MatchIsSeparator(s: string, i: nat)
    requires MatchAt(s, i).Some?
    ensures IsSeparator(s[i..i + MatchAt(s, i).value])
  {
    NewlineEndShape(s, i + 1, i + 1, None);
    var e := NewlineEnd(s, i + 1, None).value;
    var t := s[i..e];
    assert t[1..] == s[i + 1..e];
  }

  /** One step of the split: with no match the text is one piece;
      otherwise the piece before the first match, then the split of what
      follows it. */
  lemma SplitStep(s: string)
    ensures FirstMatch(s, 0).None? ==> Split(s) == [s] && Separators(s) == []
    ensures FirstMatch(s, 0).Some? ==>
      var i := FirstMatch(s, 0).value;
      var n := MatchAt(s, i).value;
      && Split(s) == [s[..i]] + Split(s[i + n..])
      && Separators(s) == [s[i..i + n]] + Separators(s[i + n..])
  {
  }

  /** Cutting a text in three and joining the parts again. */
  lemma ThreeParts(s: string, i: nat, j: nat)
    requires i <= j <= |s|
    ensures s == s[..i] + s[i..j] + s[j..]
  {
  }

  /** One match, one separator: there is one piece more than separators. */
  lemma {:induction false} SeparatorCount(s: string)
    decreases |s|
    ensures |Separators(s)| + 1 == |Split(s)|
  {
    var r := FirstMatch(s, 0);
    SplitStep(s);
    if r.Some? {
      var i := r.value;
      var rest := s[i + MatchAt(s, i).value..];
      SeparatorCount(rest);
      assert |Split(s)| == 1 + |Split(rest)|;
      assert |Separators(s)| == 1 + |Separators(rest)|;
    }
  }

  /** Each separator is matched text: a `;`, white space, a line feed. */
  lemma {:induction false} SeparatorAt(s: string, k: nat)
    decreases |s|
    requires k < |Separators(s)|
    ensures IsSeparator(Separators(s)[k])
  {
    var r := FirstMatch(s, 0);
    SplitStep(s);
    var i := r.value;
    if k == 0 {
      MatchIsSeparator(s, i);
      assert Separators(s)[0] == s[i..i + MatchAt(s, i).value];
    } else {
      SeparatorAt(s[i + MatchAt(s, i).value..], k - 1);
    }
  }

  /** Nothing is lost and nothing moves: the pieces, in source order, with
      the separators between them, are the schema text again. */
  lemma {:induction false} SplitReassembles(s: string)
    decreases |s|
    requires |Separators(s)| + 1 == |Split(s)|
    ensures Interleave(Split(s), Separators(s)) == s
  {
    var r := FirstMatch(s, 0);
    SplitStep(s);
    if r.Some? {
      var i := r.value;
      var n := MatchAt(s, i).value;
      var rest := s[i + n..];
      var pieces := Split(s);
      var seps := Separators(s);
      assert pieces[0] == s[..i] && pieces[1..] == Split(rest);
      assert seps[0] == s[i..i + n] && seps[1..] == Separators(rest);
      SplitReassembles(rest);
      calc {
        Interleave(pieces, seps);
        pieces[0] + seps[0] + Interleave(pieces[1..], seps[1..]);
        s[..i] + s[i..i + n] + rest;
        { ThreeParts(s, i, i + n); }
        s;
      }
    }
  }

  /** Cutting the text short only shortens the scan: a line feed found in
      the prefix is found in the whole. */
  lemma {:induction false} NewlineEndOfPrefix(s: string, m: nat, j: nat, last: Option<nat>)
    decreases |s| - j
    requires m <= |s|
    ensures NewlineEnd(s[..m], j, last).Some? ==> NewlineEnd(s, j, last).Some?
  {
    if j < m && Text.IsSpace(s[..m][j]) {
      NewlineEndOfPrefix(s, m, j + 1, if s[j] == '\n' then Some(j + 1) else last);
    }
  }

  /** Cutting a text creates no match before the cut. */
  lemma NoMatchInPrefix(s: string, i: nat, j: nat)
    requires j < i <= |s|
    requires MatchAt(s, j).None?
    ensures MatchAt(s[..i], j).None?
  {
    NewlineEndOfPrefix(s, i, j + 1, None);
  }

  /** The split cuts at every match: no piece holds one. */
  lemma {:induction false} PiecesHoldNoMatch(s: string, p: nat, j: nat)
    decreases |s|
    requires p < |Split(s)| && j < |Split(s)[p]|
    ensures MatchAt(Split(s)[p], j).None?
  {
    if FirstMatch(s, 0).None? {
      FirstMatchLeftmost(s, 0, j);
    } else if p == 0 {
      FirstPieceHoldsNoMatch(s, j);
    } else {
      var i := FirstMatch(s, 0).value;
      var rest := s[i + MatchAt(s, i).value..];
      assert Split(s)[p] == Split(rest)[p - 1];
      PiecesHoldNoMatch(rest, p - 1, j);
    }
  }

  /** The piece before the first match holds no match. */
  lemma FirstPieceHoldsNoMatch(s: string, j: nat)
    requires FirstMatch(s, 0).Some? && j < FirstMatch(s, 0).value
    ensures Split(s)[0] == s[..FirstMatch(s, 0).value]
    ensures MatchAt(Split(s)[0], j).None?
  {
    var i := FirstMatch(s, 0).value;
    FirstMatchLeftmost(s, 0, j);
    NoMatchInPrefix(s, i, j);
  }

  // ---------------------------------------------------------------------
  // Keeping the pieces that are more than comments
  // ---------------------------------------------------------------------

  /** The characters `.` does not match and before which `$` matches under
      the `m` flag. */
  predicate IsLineTerminator(c: char) {
    c == '\n' || c == '\r' || c == '\U{2028}' || c == '\U{2029}'
  }

  /** Where the current line ends: the first line terminator, or the end. */
  function LineEnd(s: string): (n: nat)
    ensures n <= |s|
    ensures forall j :: 0 <= j < n ==> !IsLineTerminator(s[j])
    ensures n < |s| ==> IsLineTerminator(s[n])
  {
    if s == [] || IsLineTerminator(s[0]) then 0 else 1 + LineEnd(s[1..])
  }

  /** `s.replace(/--.*$/gm, '')`: from each `--`, scanning left to right,
      the rest of its line is removed; the line terminator stays. */
  function StripComments(s: string): (r: string)
    decreases |s|
  {
    if s == [] then []
    else if |s| >= 2 && s[0] == '-' && s[1] == '-' then
      assert !IsLineTerminator(s[0]) && !IsLineTerminator(s[1]);
      StripComments(s[LineEnd(s)..])
    else [s[0]] + StripComments(s[1..])
  }

  /** `--` occurs in `s`. */
  predicate HasDoubleDash(s: string) {
    exists k :: 0 <= k < |s| - 1 && s[k] == '-' && s[k + 1] == '-'
  }

  /** Removing comments only removes characters. */
  lemma {:induction false} StripCommentsKeepsCharacters(s: string, k: nat)
    decreases |s|
    requires k < |StripComments(s)|
    ensures StripComments(s)[k] in s
  {
    if |s| >= 2 && s[0] == '-' && s[1] == '-' {
      StripCommentsKeepsCharacters(s[LineEnd(s)..], k);
    } else if k > 0 {
      StripCommentsKeepsCharacters(s[1..], k - 1);
    }
  }

  /** What comment removal leaves never contains `--`. */
  lemma {:induction false} StrippedHasNoDoubleDash(s: string)
    decreases |s|
    ensures !HasDoubleDash(StripComments(s))
  {
    if s == [] {
    } else if |s| >= 2 && s[0] == '-' && s[1] == '-' {
      StrippedHasNoDoubleDash(s[LineEnd(s)..]);
    } else {
      var tail := StripComments(s[1..]);
      StrippedHasNoDoubleDash(s[1..]);
      if s[0] == '-' && tail != [] {
        assert s[1] != '-';
        assert tail[0] == s[1];
      }
      var r := StripComments(s);
      assert r == [s[0]] + tail;
      forall k | 0 < k < |r| - 1 ensures !(r[k] == '-' && r[k + 1] == '-') {
        assert r[k] == tail[k - 1] && r[k + 1] == tail[k];
      }
    }
  }

  /** The `filter` test on a trimmed piece: something other than comments
      and white space is left. */
  predicate Keep(piece: string) {
    var cleaned := Text.Trim(StripComments(piece));
    |cleaned| > 0 && !Text.StartsWith(cleaned, "--")
  }

  /** The `!cleaned.startsWith('--')` half of the test never rejects: once
      the comments are gone, no `--` is left, at the start or elsewhere. */
  lemma KeepIffContent(piece: string)
    ensures Keep(piece) <==> Text.Trim(StripComments(piece)) != []
  {
    var stripped := StripComments(piece);
    var cleaned := Text.Trim(stripped);
    StrippedHasNoDoubleDash(piece);
    if |cleaned| >= 2 {
      var n := Text.LeadingSpaces(stripped);
      assert cleaned[0] == stripped[n] && cleaned[1] == stripped[n + 1];
    }
  }

  /** `.map(s => s.trim())`. */
  function TrimAll(pieces: seq<string>): (r: seq<string>)
    ensures |r| == |pieces| && forall k :: 0 <= k < |r| ==> r[k] == Text.Trim(pieces[k])
  {
    seq(|pieces|, k requires 0 <= k < |pieces| => Text.Trim(pieces[k]))
  }

  /** The `statements` array. */
  function Statements(schema: string): seq<string> {
    Seqs.Filter(TrimAll(Split(schema)), Keep)
  }

  /** A statement is the trimmed text of a piece, comments intact, and every
      piece that is more than comments and white space yields one. */
  lemma StatementsExact(schema: string, t: string)
    ensures t in Statements(schema) <==> t in TrimAll(Split(schema)) && Text.Trim(StripComments(t)) != []
  {
    Seqs.FilterMembership(TrimAll(Split(schema)), Keep, t);
    KeepIffContent(t);
  }

  /** A piece with something besides comments is not blank. */
  lemma KeptIsNotBlank(t: string)
    requires Keep(t)
    ensures NonBlank(t)
  {
    var stripped := StripComments(t);
    Text.TrimEmptyIff(stripped);
    var k :| 0 <= k < |stripped| && !Text.IsSpace(stripped[k]);
    StripCommentsKeepsCharacters(t, k);
    Text.TrimEmptyIff(t);
  }

  // ---------------------------------------------------------------------
  // Running the statements
  // ---------------------------------------------------------------------

  /** `if (statement.trim())`. */
  predicate NonBlank(statement: string) {
    Text.Trim(statement) != []
  }

  /** What one `query(statement)` did: the schema afterwards, and the error
      it raised, if any. */
  datatype Executed<S> = Executed(state: S, error: Option<string>)

  /** The errors the loop passes over silently. */
  predicate Ignored(message: string) {
    Text.Contains(message, "already exists") || Text.Contains(message, "duplicate")
    || Text.Contains(message, "does not exist")
  }

  /** `error.message.substring(0, 100)`. */
  function Warning(message: string): (w: string)
    ensures |w| <= 100 && |w| <= |message| && w == message[..|w|]
    ensures |message| <= 100 ==> w == message
  {
    message[..Seqs.Min(100, |message|)]
  }

  /** The schema after the loop, the errors it caught and the statements it
      handed to the database. */
  datatype RunResult<S> = RunResult(state: S, errors: seq<string>, attempted: seq<string>)

  function ErrorsOf<S>(e: Executed<S>): seq<string> {
    if e.error.Some? then [e.error.value] else []
  }

  /** An error the loop prints a warning for. */
  predicate Shown(message: string) {
    !Ignored(message)
  }

  /** What the loop prints for the errors it caught: the first 100
      characters of each one not on the ignore list. */
  function Warnings(errors: seq<string>): (r: seq<string>)
    ensures |r| <= |errors|
    ensures forall k :: 0 <= k < |r| ==> |r[k]| <= 100
  {
    var shown := Seqs.Filter(errors, Shown);
    seq(|shown|, k requires 0 <= k < |shown| => Warning(shown[k]))
  }

  /** Every caught error that is not ignored is shown, by its first 100
      characters. */
  lemma ShownErrorsWarn(errors: seq<string>, m: string)
    requires m in errors && !Ignored(m)
    ensures Warning(m) in Warnings(errors)
  {
    var shown := Seqs.Filter(errors, Shown);
    Seqs.FilterMembership(errors, Shown, m);
    var k :| 0 <= k < |shown| && shown[k] == m;
    assert Warnings(errors)[k] == Warning(m);
  }

  /** Each warning is the start of a caught error that is not ignored. */
  lemma WarningsComeFromErrors(errors: seq<string>, k: nat)
    requires k < |Warnings(errors)|
    ensures exists e :: e in errors && !Ignored(e) && Warnings(errors)[k] == Warning(e)
  {
    var shown := Seqs.Filter(errors, Shown);
    Seqs.FilterMembership(errors, Shown, shown[k]);
    assert Warnings(errors)[k] == Warning(shown[k]);
  }

  /** One pass of the loop body: a blank statement is skipped; any other
      goes to the database, and its error, if any, is caught and kept. */
  function Step<S>(before: RunResult<S>, statement: string, query: (S, string) -> Executed<S>): RunResult<S> {
    if !NonBlank(statement) then before
    else
      var e := query(before.state, statement);
      RunResult(e.state, before.errors + ErrorsOf(e), before.attempted + [statement])
  }

  /** The loop, statement by statement: an error is caught where it is
      raised and the next statement runs on the schema as it stands. */
  function Run<S>(state: S, statements: seq<string>, query: (S, string) -> Executed<S>): RunResult<S>
    decreases |statements|
  {
    if statements == [] then RunResult(state, [], [])
    else Step(Run(state, statements[..|statements| - 1], query), statements[|statements| - 1], query)
  }

  /** A failing statement never stops the rest: running `a` then `b` is
      running `b` from where `a` left the schema, whatever errors `a` raised. */
  lemma RunConcat<S>(state: S, a: seq<string>, b: seq<string>, query: (S, string) -> Executed<S>)
    ensures var first := Run(state, a, query);
      var second := Run(first.state, b, query);
      Run(state, a + b, query) ==
        RunResult(second.state, first.errors + second.errors, first.attempted + second.attempted)
  {
    var first := Run(state, a, query);
    RunConcatErrors(state, a, b, query);
    RunAttempts(state, a + b, query);
    RunAttempts(state, a, query);
    RunAttempts(first.state, b, query);
    Seqs.FilterConcat(a, b, NonBlank);
  }

  /** The schema and the errors of a concatenation, by induction on `b`. */
  lemma {:induction false} RunConcatErrors<S>(state: S, a: seq<string>, b: seq<string>, query: (S, string) -> Executed<S>)
    decreases |b|
    ensures var first := Run(state, a, query);
      var second := Run(first.state, b, query);
      && Run(state, a + b, query).state == second.state
      && Run(state, a + b, query).errors == first.errors + second.errors
  {
    if b == [] {
      assert a + b == a;
    } else {
      var init := b[..|b| - 1];
      var last := b[|b| - 1];
      assert b == init + [last];
      assert a + b == (a + init) + [last];
      RunConcatErrors(state, a, init, query);
      var first := Run(state, a, query);
      RunSnocStep(state, a + init, last, query);
      RunSnocStep(first.state, init, last, query);
      StepKeepsAgreement(Run(state, a + init, query), Run(first.state, init, query), first.errors, last, query);
    }
  }

  /** `Run` of one more statement is one more `Step`. */
  lemma RunSnocStep<S>(state: S, statements: seq<string>, statement: string, query: (S, string) -> Executed<S>)
    ensures Run(state, statements + [statement], query) == Step(Run(state, statements, query), statement, query)
  {
    var s := statements + [statement];
    assert s[..|s| - 1] == statements && s[|s| - 1] == statement;
  }

  /** Two runs that stand at the same schema, one with some earlier errors
      in front, still do after the same statement. */
  lemma StepKeepsAgreement<S>(r: RunResult<S>, r': RunResult<S>, earlier: seq<string>, statement: string,
                              query: (S, string) -> Executed<S>)
    requires r.state == r'.state && r.errors == earlier + r'.errors
    ensures Step(r, statement, query).state == Step(r', statement, query).state
    ensures Step(r, statement, query).errors == earlier + Step(r', statement, query).errors
  {
    if NonBlank(statement) {
      var e := query(r.state, statement);
      assert earlier + r'.errors + ErrorsOf(e) == earlier + (r'.errors + ErrorsOf(e));
    }
  }

  /** One more statement: the loop body. */
  lemma RunSnoc<S>(state: S, statements: seq<string>, statement: string, query: (S, string) -> Executed<S>)
    ensures var before := Run(state, statements, query);
      Run(state, statements + [statement], query) ==
        if !NonBlank(statement) then before
        else
          var e := query(before.state, statement);
          RunResult(e.state, before.errors + ErrorsOf(e), before.attempted + [statement])
  {
    RunSnocStep(state, statements, statement, query);
  }

  /** Exactly the non-blank statements reach the database, in order. */
  lemma {:induction false} RunAttempts<S>(state: S, statements: seq<string>, query: (S, string) -> Executed<S>)
    decreases |statements|
    ensures Run(state, statements, query).attempted == Seqs.Filter(statements, NonBlank)
  {
    if statements != [] {
      var init := statements[..|statements| - 1];
      var last := statements[|statements| - 1];
      assert statements == init + [last];
      RunAttempts(state, init, query);
      RunSnoc(state, init, last, query);
      Seqs.FilterSnoc(init, last, NonBlank);
    }
  }

  /** The `for` loop over the statements, with `query` standing for the
      database. */
  method RunStatements<S>(state: S, statements: seq<string>, query: (S, string) -> Executed<S>)
    returns (final: S, errors: seq<string>, attempted: seq<string>)
    ensures RunResult(final, errors, attempted) == Run(state, statements, query)
  {
    final, errors, attempted := state, [], [];
    for i := 0 to |statements|
      invariant RunResult(final, errors, attempted) == Run(state, statements[..i], query)
    {
      var statement := statements[i];
      assert statements[..i + 1] == statements[..i] + [statement];
      RunSnocStep(state, statements[..i], statement, query);
      final, errors, attempted := RunOne(final, errors, attempted, statement, query);
    }
    assert statements[..|statements|] == statements;
  }

  /** The body of the loop: `if (statement.trim())`, then the `try` around
      `query(statement)` and the `catch` that keeps the error. */
  method RunOne<S>(state: S, errors: seq<string>, attempted: seq<string>, statement: string,
                   query: (S, string) -> Executed<S>)
    returns (state': S, errors': seq<string>, attempted': seq<string>)
    ensures RunResult(state', errors', attempted') == Step(RunResult(state, errors, attempted), statement, query)
  {
    state', errors', attempted' := state, errors, attempted;
    if NonBlank(statement) {
      var e := query(state, statement);
      state' := e.state;
      if e.error.Some? {
        errors' := errors + [e.error.value];
      }
      attempted' := attempted + [statement];
    }
  }

  /** `initDatabase` hands every kept statement to the database, in order:
      the `statement.trim()` test inside the loop never skips one. */
  lemma EveryStatementAttempted(schema: string)
    ensures Seqs.Filter(Statements(schema), NonBlank) == Statements(schema)
  {
    var statements := Statements(schema);
    forall k | 0 <= k < |statements| ensures NonBlank(statements[k]) {
      KeptIsNotBlank(statements[k]);
    }
    Seqs.FilterAll(statements, NonBlank);
  }

  /** `initDatabase()` after the connection test, with `schema` the text of
      the schema file: every kept statement reaches the database, in source
      order, each from the schema the previous ones left. */
  method InitSchema<S>(state: S, schema: string, query: (S, string) -> Executed<S>)
    returns (final: S, errors: seq<string>, attempted: seq<string>)
    ensures RunResult(final, errors, attempted) == Run(state, Statements(schema), query)
    ensures attempted == Statements(schema)
  {
    final, errors, attempted := RunStatements(state, Statements(schema), query);
    RunAttempts(state, Statements(schema), query);
    EveryStatementAttempted(schema);
  }

  // ---------------------------------------------------------------------
  // Migrating the JSON data file
  // ---------------------------------------------------------------------

  /** The records of `products.json`; a field that may be missing is an
      `Option`. */
  datatype JsonCategory = JsonCategory(
    id: string, name: string, description: Option<string>, image: Option<string>,
    createdAt: Option<string>, updatedAt: Option<string>)

  datatype JsonSubCategory = JsonSubCategory(
    id: string, name: string, categoryId: string, description: Option<string>,
    createdAt: Option<string>, updatedAt: Option<string>)

  datatype JsonProduct = JsonProduct(
    id: string, name: string, category: string, subCategory: string,
    description: string, image: string, price: Option<int>, inStock: Option<bool>,
    attributes: Option<Catalog.Attributes>, createdAt: Option<string>, updatedAt: Option<string>)

  /** A missing list reads as an empty one: both skip the loop. */
  datatype JsonData = JsonData(
    categories: seq<JsonCategory>, subCategories: seq<JsonSubCategory>, products: seq<JsonProduct>)

  /** The parameters of each INSERT, with `now` standing for
      `new Date().toISOString()`. */
  function CategoryRowOf(c: JsonCategory, now: string): CategoryRow {
    CategoryRow(c.id, c.name, Some(Text.OrElse(c.description, "")), Some(Text.OrElse(c.image, "")),
      Text.OrElse(c.createdAt, now), Text.OrElse(c.updatedAt, now))
  }

  function SubCategoryRowOf(s: JsonSubCategory, now: string): SubCategoryRow {
    SubCategoryRow(s.id, s.name, s.categoryId, Some(Text.OrElse(s.description, "")),
      Text.OrElse(s.createdAt, now), Text.OrElse(s.updatedAt, now))
  }

  function ProductRowOf(p: JsonProduct, now: string): ProductRow {
    ProductRow(p.id, p.name, p.category, p.subCategory, p.description, p.image,
      if p.price.Some? then p.price.value else 0,
      if p.inStock.Some? then p.inStock.value else true,
      if p.attributes.Some? then p.attributes.value else map[],
      Text.OrElse(p.createdAt, now), Text.OrElse(p.updatedAt, now))
  }

  /** The defaults the migration fills in. */
  lemma MigrationDefaults(c: JsonCategory, s: JsonSubCategory, p: JsonProduct, now: string)
    ensures !Text.Truthy(c.description) ==> CategoryRowOf(c, now).description == Some("")
    ensures !Text.Truthy(c.image) ==> CategoryRowOf(c, now).image == Some("")
    ensures Text.Truthy(c.description) ==> CategoryRowOf(c, now).description == c.description
    ensures !Text.Truthy(s.description) ==> SubCategoryRowOf(s, now).description == Some("")
    ensures p.price.None? || p.price == Some(0) ==> ProductRowOf(p, now).price == 0
    ensures p.price.Some? ==> ProductRowOf(p, now).price == p.price.value
    ensures p.inStock.None? ==> ProductRowOf(p, now).inStock
    ensures p.inStock == Some(false) ==> !ProductRowOf(p, now).inStock
    ensures p.attributes.None? ==> ProductRowOf(p, now).attributes == map[]
    ensures CategoryRowOf(c, now).createdAt == (if Text.Truthy(c.createdAt) then c.createdAt.value else now)
  {
  }

  function CategoryRows(cs: seq<JsonCategory>, now: string): (r: seq<CategoryRow>)
    ensures |r| == |cs| && forall k :: 0 <= k < |r| ==> r[k] == CategoryRowOf(cs[k], now)
  {
    seq(|cs|, k requires 0 <= k < |cs| => CategoryRowOf(cs[k], now))
  }

  function SubCategoryRows(ss: seq<JsonSubCategory>, now: string): (r: seq<SubCategoryRow>)
    ensures |r| == |ss| && forall k :: 0 <= k < |r| ==> r[k] == SubCategoryRowOf(ss[k], now)
  {
    seq(|ss|, k requires 0 <= k < |ss| => SubCategoryRowOf(ss[k], now))
  }

  function ProductRows(ps: seq<JsonProduct>, now: string): (r: seq<ProductRow>)
    ensures |r| == |ps| && forall k :: 0 <= k < |r| ==> r[k] == ProductRowOf(ps[k], now)
  {
    seq(|ps|, k requires 0 <= k < |ps| => ProductRowOf(ps[k], now))
  }

  predicate HasKey<R>(rows: seq<R>, key: R -> string, id: string) {
    exists k :: 0 <= k < |rows| && key(rows[k]) == id
  }

  /** `INSERT ... ON CONFLICT (id) DO NOTHING`. */
  function InsertNew<R>(rows: seq<R>, row: R, key: R -> string): seq<R> {
    if HasKey(rows, key, key(row)) then rows else rows + [row]
  }

  /** One such INSERT per record, in order. */
  function InsertAll<R>(rows: seq<R>, incoming: seq<R>, key: R -> string): seq<R>
    decreases |incoming|
  {
    if incoming == [] then rows
    else InsertNew(InsertAll(rows, incoming[..|incoming| - 1], key), incoming[|incoming| - 1], key)
  }

  /** Rows already in the table stay where they are, untouched. */
  lemma {:induction false} InsertAllKeepsExisting<R>(rows: seq<R>, incoming: seq<R>, key: R -> string)
    decreases |incoming|
    ensures |rows| <= |InsertAll(rows, incoming, key)|
    ensures InsertAll(rows, incoming, key)[..|rows|] == rows
  {
    if incoming != [] {
      InsertAllKeepsExisting(rows, incoming[..|incoming| - 1], key);
      var before := InsertAll(rows, incoming[..|incoming| - 1], key);
      if !HasKey(before, key, key(incoming[|incoming| - 1])) {
        assert (before + [incoming[|incoming| - 1]])[..|rows|] == before[..|rows|];
      }
    }
  }

  /** An id ends up in the table exactly when it was there or some record
      carries it. */
  lemma {:induction false} InsertAllKeys<R>(rows: seq<R>, incoming: seq<R>, key: R -> string, id: string)
    decreases |incoming|
    ensures HasKey(InsertAll(rows, incoming, key), key, id) <==> HasKey(rows, key, id) || HasKey(incoming, key, id)
  {
    if incoming != [] {
      var init := incoming[..|incoming| - 1];
      var last := incoming[|incoming| - 1];
      assert incoming == init + [last];
      InsertAllKeys(rows, init, key, id);
      var before := InsertAll(rows, init, key);
      HasKeySnoc(init, last, key, id);
      HasKeySnoc(before, last, key, id);
    }
  }

  /** An id is in a table with one more row when it was there or the row carries it. */
  lemma HasKeySnoc<R>(rows: seq<R>, row: R, key: R -> string, id: string)
    ensures HasKey(rows + [row], key, id) <==> HasKey(rows, key, id) || key(row) == id
  {
    if HasKey(rows + [row], key, id) {
      var k :| 0 <= k < |rows| + 1 && key((rows + [row])[k]) == id;
      if k < |rows| {
        assert (rows + [row])[k] == rows[k];
      }
    }
    if HasKey(rows, key, id) {
      var k :| 0 <= k < |rows| && key(rows[k]) == id;
      assert (rows + [row])[k] == rows[k];
    }
    assert (rows + [row])[|rows|] == row;
  }

  /** No two rows share an id. */
  predicate KeysDistinct<R>(rows: seq<R>, key: R -> string) {
    forall i, j :: 0 <= i < j < |rows| ==> key(rows[i]) != key(rows[j])
  }

  /** The primary key stays a key: no id is inserted twice. */
  lemma {:induction false} InsertAllKeepsKeysDistinct<R>(rows: seq<R>, incoming: seq<R>, key: R -> string)
    decreases |incoming|
    requires KeysDistinct(rows, key)
    ensures KeysDistinct(InsertAll(rows, incoming, key), key)
  {
    if incoming != [] {
      var init := incoming[..|incoming| - 1];
      var last := incoming[|incoming| - 1];
      InsertAllKeepsKeysDistinct(rows, init, key);
      var before := InsertAll(rows, init, key);
      if !HasKey(before, key, key(last)) {
        var r := before + [last];
        forall i, j | 0 <= i < j < |r| ensures key(r[i]) != key(r[j]) {
          assert r[i] == before[i];
          if j < |before| {
            assert r[j] == before[j];
          } else {
            assert r[j] == last;
            NotHasKey(before, key, key(last), i);
          }
        }
      }
    }
  }

  lemma NotHasKey<R>(rows: seq<R>, key: R -> string, id: string, i: nat)
    requires !HasKey(rows, key, id) && i < |rows|
    ensures key(rows[i]) != id
  {
  }

  /** Whether `migrateData` stops before inserting anything: no data file,
      or a categories or products table that is not empty. The
      subcategories table is not consulted. */
  predicate SkipsMigration(categories: seq<CategoryRow>, products: seq<ProductRow>, data: Option<JsonData>) {
    data.None? || |categories| > 0 || |products| > 0
  }

  function CategoryId(row: CategoryRow): string { row.id }
  function SubCategoryId(row: SubCategoryRow): string { row.id }
  function ProductId(row: ProductRow): string { row.id }

  /** `migrateData()`, with `data` the parsed file (or `None` when the file
      does not exist) and `now` the current time. */
  method MigrateData(db: Database, data: Option<JsonData>, now: string)
    modifies db
    ensures SkipsMigration(old(db.categories), old(db.products), data) ==>
      db.categories == old(db.categories) && db.subcategories == old(db.subcategories) && db.products == old(db.products)
    ensures !SkipsMigration(old(db.categories), old(db.products), data) ==>
      && db.categories == InsertAll(old(db.categories), CategoryRows(data.value.categories, now), CategoryId)
      && db.subcategories == InsertAll(old(db.subcategories), SubCategoryRows(data.value.subCategories, now), SubCategoryId)
      && db.products == InsertAll(old(db.products), ProductRows(data.value.products, now), ProductId)
    ensures db.admins == old(db.admins)
  {
    if SkipsMigration(db.categories, db.products, data) {
      return;
    }
    var json := data.value;
    MigrateCategories(db, CategoryRows(json.categories, now));
    MigrateSubCategories(db, SubCategoryRows(json.subCategories, now));
    MigrateProducts(db, ProductRows(json.products, now));
  }

  /** The loop over `jsonData.categories`. */
  method MigrateCategories(db: Database, rows: seq<CategoryRow>)
    modifies db
    ensures db.categories == InsertAll(old(db.categories), rows, CategoryId)
    ensures db.subcategories == old(db.subcategories) && db.products == old(db.products)
    ensures db.admins == old(db.admins)
  {
    for i := 0 to |rows|
      invariant db.categories == InsertAll(old(db.categories), rows[..i], CategoryId)
      invariant db.subcategories == old(db.subcategories) && db.products == old(db.products)
      invariant db.admins == old(db.admins)
    {
      assert rows[..i + 1][..i] == rows[..i];
      db.categories := InsertNew(db.categories, rows[i], CategoryId);
    }
    assert rows[..|rows|] == rows;
  }

  /** The loop over `jsonData.subCategories`. */
  method MigrateSubCategories(db: Database, rows: seq<SubCategoryRow>)
    modifies db
    ensures db.subcategories == InsertAll(old(db.subcategories), rows, SubCategoryId)
    ensures db.categories == old(db.categories) && db.products == old(db.products)
    ensures db.admins == old(db.admins)
  {
    for i := 0 to |rows|
      invariant db.subcategories == InsertAll(old(db.subcategories), rows[..i], SubCategoryId)
      invariant db.categories == old(db.categories) && db.products == old(db.products)
      invariant db.admins == old(db.admins)
    {
      assert rows[..i + 1][..i] == rows[..i];
      db.subcategories := InsertNew(db.subcategories, rows[i], SubCategoryId);
    }
    assert rows[..|rows|] == rows;
  }

  /** The loop over `jsonData.products`. */
  method MigrateProducts(db: Database, rows: seq<ProductRow>)
    modifies db
    ensures db.products == InsertAll(old(db.products), rows, ProductId)
    ensures db.categories == old(db.categories) && db.subcategories == old(db.subcategories)
    ensures db.admins == old(db.admins)
  {
    for i := 0 to |rows|
      invariant db.products == InsertAll(old(db.products), rows[..i], ProductId)
      invariant db.categories == old(db.categories) && db.subcategories == old(db.subcategories)
      invariant db.admins == old(db.admins)
    {
      assert rows[..i + 1][..i] == rows[..i];
      db.products := InsertNew(db.products, rows[i], ProductId);
    }
    assert rows[..|rows|] == rows;
  }
}
