/**
 * Live entity values: which values of the data source a question may mean. Lookups are trusted,
 * parameterized statements over reviewed and authorized columns, tried from strict to loose.
 */
module EntityLookup {
  import opened Wrappers
  import opened Sequences
  import opened StringOrder
  import opened SearchTerms
  import opened Discovery

  const MAX_ENTITY_CANDIDATES := 5

  /** What lookups take from Python's text handling. */
  datatype TextRules = TextRules(
    fold: string -> string,
    kinds: Kinds,
    isDisplay: string -> bool,
    normalize: string -> string,
    score: (Rung, string, string, string) -> Option<real>)

  /** How closely a value answers the question, strictest first. */
  datatype Rung = CANONICAL | EXACT | PREFIX | FUZZY

  // ---------------------------------------------------------------------------------------------
  // Reviewed columns

  /** One reviewed entity's key column and display column. */
  datatype Binding = Binding(
    entity: nat, entityName: string, schema: string, table: string, canonicalColumn: string, displayColumn: string)

  /** The columns of the tables the caller may read. */
  type Authorized = map<(string, string), set<string>>

  function FirstAttribute(xs: seq<Attribute>, wanted: Attribute -> bool): (x: Option<Attribute>)
    ensures x.Some? ==> x.value in xs && wanted(x.value)
    ensures x.None? ==> forall y :: y in xs ==> !wanted(y)
  {
    if xs == [] then None else if wanted(xs[0]) then Some(xs[0]) else FirstAttribute(xs[1..], wanted)
  }

  function IsKeyOf(e: Entity, columns: set<string>): Attribute -> bool {
    (x: Attribute) => x.status == CONFIRMED && x.entityId == e.id && x.isIdentifier && x.column in columns
  }

  function IsLabelOf(rules: TextRules, e: Entity, columns: set<string>): Attribute -> bool {
    (x: Attribute) =>
      x.status == CONFIRMED && x.entityId == e.id && !x.isIdentifier && x.column in columns && rules.isDisplay(x.concept)
  }

  function BindingOf(rules: TextRules, m: Model, tables: Authorized, concept: Option<string>, e: Entity): Option<Binding> {
    if e.status != CONFIRMED || (concept.Some? && rules.fold(e.name) != rules.fold(concept.value))
       || (e.schema, e.table) !in tables then None
    else
      var columns := tables[(e.schema, e.table)];
      var key := FirstAttribute(m.attributes, IsKeyOf(e, columns));
      var label_ := FirstAttribute(m.attributes, IsLabelOf(rules, e, columns));
      if key.None? || label_.None? then None
      else Some(Binding(e.id, e.name, e.schema, e.table, key.value.column, label_.value.column))
  }

  function BindingsOf(rules: TextRules, m: Model, tables: Authorized, concept: Option<string>, es: seq<Entity>): seq<Binding> {
    if es == [] then []
    else
      var b := BindingOf(rules, m, tables, concept, es[0]);
      (if b.Some? then [b.value] else []) + BindingsOf(rules, m, tables, concept, es[1..])
  }

  function Bindings(rules: TextRules, m: Model, tables: Authorized, concept: Option<string>): seq<Binding> {
    BindingsOf(rules, m, tables, concept, m.entities)
  }

  /** Someone confirmed the entity, its key and its label, and the caller may read both columns. */
  ghost predicate Reviewed(rules: TextRules, m: Model, tables: Authorized, b: Binding) {
    && (b.schema, b.table) in tables
    && b.canonicalColumn in tables[(b.schema, b.table)] && b.displayColumn in tables[(b.schema, b.table)]
    && (exists e :: e in m.entities && e.status == CONFIRMED
          && (e.id, e.name, e.schema, e.table) == (b.entity, b.entityName, b.schema, b.table))
    && (exists x :: x in m.attributes && x.status == CONFIRMED && x.entityId == b.entity && x.isIdentifier
          && x.column == b.canonicalColumn)
    && (exists x :: x in m.attributes && x.status == CONFIRMED && x.entityId == b.entity && !x.isIdentifier
          && x.column == b.displayColumn)
  }

  lemma {:induction false} BindingIsReviewed(
    rules: TextRules, m: Model, tables: Authorized, concept: Option<string>, e: Entity)
    requires e in m.entities && BindingOf(rules, m, tables, concept, e).Some?
    ensures Reviewed(rules, m, tables, BindingOf(rules, m, tables, concept, e).value)
    ensures BindingOf(rules, m, tables, None, e) == BindingOf(rules, m, tables, concept, e)
  {
    var columns := tables[(e.schema, e.table)];
    var key := FirstAttribute(m.attributes, IsKeyOf(e, columns)).value;
    var shown := FirstAttribute(m.attributes, IsLabelOf(rules, e, columns)).value;
    assert key in m.attributes && shown in m.attributes;
  }

  /** Every binding is reviewed, and narrowing to a concept only leaves bindings out. */
  lemma {:induction false} BindingsAreReviewed(
    rules: TextRules, m: Model, tables: Authorized, concept: Option<string>, es: seq<Entity>)
    requires forall e :: e in es ==> e in m.entities
    ensures forall b :: b in BindingsOf(rules, m, tables, concept, es) ==>
      Reviewed(rules, m, tables, b) && b in BindingsOf(rules, m, tables, None, es)
  {
    if es != [] {
      BindingsAreReviewed(rules, m, tables, concept, es[1..]);
      if BindingOf(rules, m, tables, concept, es[0]).Some? {
        BindingIsReviewed(rules, m, tables, concept, es[0]);
      }
      hide Reviewed, BindingOf;
    }
  }

  /** Attribute `i` is the first in the model that someone confirmed, of this entity, readable, and of this kind. */
  ghost predicate FirstOfKind(
    rules: TextRules, m: Model, e: Entity, columns: set<string>, identifier: bool, column: string, i: int)
  {
    && 0 <= i < |m.attributes| && m.attributes[i].column == column
    && OfKind(rules, m.attributes[i], e, columns, identifier)
    && forall j :: 0 <= j < i ==> !OfKind(rules, m.attributes[j], e, columns, identifier)
  }

  predicate OfKind(rules: TextRules, x: Attribute, e: Entity, columns: set<string>, identifier: bool) {
    && x.status == CONFIRMED && x.entityId == e.id && x.column in columns
    && (x.isIdentifier <==> identifier) && (!identifier ==> rules.isDisplay(x.concept))
  }

  /**
   * The binding is this entity's: it is confirmed and of the concept asked for, its table is one the caller
   * may read, and the columns are those of its first usable key and of its first usable display name.
   */
  ghost predicate IsBindingOf(
    rules: TextRules, m: Model, tables: Authorized, concept: Option<string>, e: Entity, b: Binding)
  {
    && e.status == CONFIRMED && (concept.Some? ==> rules.fold(e.name) == rules.fold(concept.value))
    && (e.schema, e.table) in tables
    && (b.entity, b.entityName, b.schema, b.table) == (e.id, e.name, e.schema, e.table)
    && (exists i :: FirstOfKind(rules, m, e, tables[(e.schema, e.table)], true, b.canonicalColumn, i))
    && (exists i :: FirstOfKind(rules, m, e, tables[(e.schema, e.table)], false, b.displayColumn, i))
  }

  lemma {:induction false} FirstAttributeExactly(xs: seq<Attribute>, wanted: Attribute -> bool, i: int)
    requires 0 <= i < |xs| && wanted(xs[i]) && forall j :: 0 <= j < i ==> !wanted(xs[j])
    ensures FirstAttribute(xs, wanted) == Some(xs[i])
  {
    if i > 0 {
      FirstAttributeExactly(xs[1..], wanted, i - 1);
    }
  }

  lemma {:induction false} FirstAttributeAt(xs: seq<Attribute>, wanted: Attribute -> bool) returns (i: nat)
    requires FirstAttribute(xs, wanted).Some?
    ensures i < |xs| && FirstAttribute(xs, wanted) == Some(xs[i]) && wanted(xs[i])
    ensures forall j :: 0 <= j < i ==> !wanted(xs[j])
  {
    if wanted(xs[0]) {
      i := 0;
    } else {
      var k := FirstAttributeAt(xs[1..], wanted);
      i := k + 1;
      assert forall j :: 0 < j < i ==> xs[j] == xs[1..][j - 1];
    }
  }

  lemma {:induction false} FirstKeyExactly(rules: TextRules, m: Model, e: Entity, columns: set<string>, column: string)
    ensures var key := FirstAttribute(m.attributes, IsKeyOf(e, columns));
      (exists i :: FirstOfKind(rules, m, e, columns, true, column, i)) <==> key.Some? && key.value.column == column
  {
    var key := FirstAttribute(m.attributes, IsKeyOf(e, columns));
    forall x ensures IsKeyOf(e, columns)(x) <==> OfKind(rules, x, e, columns, true) {
    }
    hide IsKeyOf, OfKind;
    if key.Some? {
      var i := FirstAttributeAt(m.attributes, IsKeyOf(e, columns));
      assert key.value.column == column ==> FirstOfKind(rules, m, e, columns, true, column, i);
    }
    if i :| FirstOfKind(rules, m, e, columns, true, column, i) {
      FirstAttributeExactly(m.attributes, IsKeyOf(e, columns), i);
    }
  }

  lemma {:induction false} FirstLabelExactly(rules: TextRules, m: Model, e: Entity, columns: set<string>, column: string)
    ensures var shown := FirstAttribute(m.attributes, IsLabelOf(rules, e, columns));
      (exists i :: FirstOfKind(rules, m, e, columns, false, column, i)) <==> shown.Some? && shown.value.column == column
  {
    var shown := FirstAttribute(m.attributes, IsLabelOf(rules, e, columns));
    forall x ensures IsLabelOf(rules, e, columns)(x) <==> OfKind(rules, x, e, columns, false) {
    }
    hide IsLabelOf, OfKind;
    if shown.Some? {
      var i := FirstAttributeAt(m.attributes, IsLabelOf(rules, e, columns));
      assert shown.value.column == column ==> FirstOfKind(rules, m, e, columns, false, column, i);
    }
    if i :| FirstOfKind(rules, m, e, columns, false, column, i) {
      FirstAttributeExactly(m.attributes, IsLabelOf(rules, e, columns), i);
    }
  }

  lemma {:induction false} BindingOfExactly(
    rules: TextRules, m: Model, tables: Authorized, concept: Option<string>, e: Entity, b: Binding)
    ensures BindingOf(rules, m, tables, concept, e) == Some(b) <==> IsBindingOf(rules, m, tables, concept, e, b)
  {
    if (e.schema, e.table) in tables {
      var columns := tables[(e.schema, e.table)];
      FirstKeyExactly(rules, m, e, columns, b.canonicalColumn);
      FirstLabelExactly(rules, m, e, columns, b.displayColumn);
    }
    hide FirstAttribute, FirstOfKind, IsKeyOf, IsLabelOf;
  }

  /** What can be searched is exactly one binding for each entity that has one. */
  lemma {:induction false} BindingsExactly(
    rules: TextRules, m: Model, tables: Authorized, concept: Option<string>, es: seq<Entity>, b: Binding)
    ensures b in BindingsOf(rules, m, tables, concept, es) <==>
      exists e :: e in es && IsBindingOf(rules, m, tables, concept, e, b)
  {
    if es != [] {
      BindingOfExactly(rules, m, tables, concept, es[0], b);
      BindingsExactly(rules, m, tables, concept, es[1..], b);
      hide BindingOf, IsBindingOf;
    }
  }

  // ---------------------------------------------------------------------------------------------
  // Statements

  datatype Strategy = KeyEquals | LabelEquals | LabelStarts | LabelContains

  /** One statement to send: the columns, the predicate, and the fragment passed as its parameter. */
  datatype Lookup = Lookup(binding: Binding, strategy: Strategy, term: string)

  datatype Found = Found(canonicalKey: string, displayValue: string)

  function LookupsWith(b: Binding, strategy: Strategy, terms: seq<string>): (ls: seq<Lookup>)
    ensures |ls| == |terms| && forall i :: 0 <= i < |ls| ==> ls[i] == Lookup(b, strategy, terms[i])
  {
    seq(|terms|, i requires 0 <= i < |terms| => Lookup(b, strategy, terms[i]))
  }

  /** The ladder of one binding: every fragment under each predicate, strictest predicate first. */
  function Ladder(b: Binding, terms: seq<string>): (ls: seq<Lookup>)
    ensures |ls| == 4 * |terms|
    ensures forall l :: l in ls ==> l.binding == b && l.term in terms
  {
    LookupsWith(b, KeyEquals, terms) + LookupsWith(b, LabelEquals, terms)
    + LookupsWith(b, LabelStarts, terms) + LookupsWith(b, LabelContains, terms)
  }

  // ---------------------------------------------------------------------------------------------
  // Fragments as parameters

  /** A fragment with what LIKE would read as a wildcard escaped. */
  function Escape(term: string): string {
    if term == "" then ""
    else (if term[0] == '\\' || term[0] == '%' || term[0] == '_' then ['\\', term[0]] else [term[0]]) + Escape(term[1..])
  }

  /** The pattern a loose lookup compares labels with. */
  function PatternOf(strategy: Strategy, term: string): string
    requires strategy == LabelStarts || strategy == LabelContains
  {
    (if strategy == LabelContains then "%" else "") + Escape(term) + "%"
  }

  /** SQL's LIKE with a backslash as the escape character. */
  predicate Like(text: string, pattern: string)
    decreases |pattern| + |text|
  {
    if pattern == "" then text == ""
    else if pattern[0] == '\\' && |pattern| > 1 then
      text != "" && text[0] == pattern[1] && Like(text[1..], pattern[2..])
    else if pattern[0] == '%' then Like(text, pattern[1..]) || (text != "" && Like(text[1..], pattern))
    else if pattern[0] == '_' then text != "" && Like(text[1..], pattern[1..])
    else text != "" && text[0] == pattern[0] && Like(text[1..], pattern[1..])
  }

  /** An escaped fragment matches itself and nothing else. */
  lemma {:induction false} EscapedIsLiteral(term: string, rest: string, text: string)
    ensures Like(text, Escape(term) + rest) <==> term <= text && Like(text[|term|..], rest)
  {
    if term == "" {
      assert Escape(term) + rest == rest && text[0..] == text;
    } else {
      var tail := Escape(term[1..]) + rest;
      var special := term[0] == '\\' || term[0] == '%' || term[0] == '_';
      assert Escape(term) + rest == (if special then ['\\', term[0]] else [term[0]]) + tail;
      assert (['\\', term[0]] + tail)[2..] == tail && ([term[0]] + tail)[1..] == tail;
      hide Escape;
      assert Like(text, Escape(term) + rest) <==> text != "" && text[0] == term[0] && Like(text[1..], tail);
      if text != "" {
        EscapedIsLiteral(term[1..], rest, text[1..]);
        assert term <= text <==> term[0] == text[0] && term[1..] <= text[1..];
        assert term <= text ==> text[1..][|term[1..]|..] == text[|term|..];
      }
    }
  }

  lemma {:induction false} AnythingEnds(text: string)
    ensures Like(text, "%")
  {
    assert "%"[1..] == "";
    if text != "" {
      AnythingEnds(text[1..]);
    }
  }

  lemma {:induction false} AnythingBefore(text: string, pattern: string)
    ensures Like(text, "%" + pattern) <==> exists i :: 0 <= i <= |text| && Like(text[i..], pattern)
  {
    assert ("%" + pattern)[1..] == pattern && text[0..] == text;
    if text != "" {
      AnythingBefore(text[1..], pattern);
      assert forall i :: 0 < i <= |text| ==> text[i..] == text[1..][i - 1..];
      if i :| 0 <= i <= |text[1..]| && Like(text[1..][i..], pattern) {
        assert text[i + 1..] == text[1..][i..];
      }
    }
  }

  /** Loose lookups find exactly the labels that start with, or contain, the fragment as it is written. */
  lemma {:induction false} LooseLookupsAreLiteral(term: string, label_: string)
    ensures Like(label_, PatternOf(LabelStarts, term)) <==> term <= label_
    ensures Like(label_, PatternOf(LabelContains, term)) <==> exists i :: 0 <= i <= |label_| && term <= label_[i..]
  {
    forall i | 0 <= i <= |label_| ensures Like(label_[i..], Escape(term) + "%") <==> term <= label_[i..] {
      EscapedIsLiteral(term, "%", label_[i..]);
      if term <= label_[i..] {
        AnythingEnds(label_[i..][|term|..]);
      }
    }
    AnythingBefore(label_, Escape(term) + "%");
    hide Like, Escape;
    assert label_[0..] == label_;
    assert PatternOf(LabelStarts, term) == Escape(term) + "%";
    assert PatternOf(LabelContains, term) == "%" + (Escape(term) + "%");
  }

  // ---------------------------------------------------------------------------------------------
  // Sending them

  datatype Candidate = Candidate(binding: Binding, canonicalKey: string, displayValue: string)

  /** What the data source answers; `None` is a call that fails. */
  type Database = Lookup -> Option<seq<Found>>

  function CandidatesOf(b: Binding, rows: seq<Found>): (cs: seq<Candidate>)
    ensures |cs| == |rows|
    ensures forall i :: 0 <= i < |cs| ==> cs[i] == Candidate(b, rows[i].canonicalKey, rows[i].displayValue)
  {
    seq(|rows|, i requires 0 <= i < |rows| => Candidate(b, rows[i].canonicalKey, rows[i].displayValue))
  }

  /** The first rows a ladder finds, if no call fails before, and the lookups sent. */
  function Climb(database: Database, ladder: seq<Lookup>): (r: (Option<seq<Candidate>>, seq<Lookup>)) {
    if ladder == [] then (Some([]), [])
    else
      var answer := database(ladder[0]);
      if answer.None? then (None, [ladder[0]])
      else if answer.value != [] then
        (Some(CandidatesOf(ladder[0].binding, Firsts(answer.value, MAX_ENTITY_CANDIDATES))), [ladder[0]])
      else
        var rest := Climb(database, ladder[1..]);
        (rest.0, [ladder[0]] + rest.1)
  }

  function ClimbAll(database: Database, bindings: seq<Binding>, terms: seq<string>):
    (r: (Option<seq<Candidate>>, seq<Lookup>))
  {
    if bindings == [] then (Some([]), [])
    else
      var one := Climb(database, Ladder(bindings[0], terms));
      if one.0.None? then one
      else
        var rest := ClimbAll(database, bindings[1..], terms);
        (if rest.0.None? then None else Some(one.0.value + rest.0.value), one.1 + rest.1)
  }

  method LookUp(database: Database, b: Binding, terms: seq<string>)
    returns (found: Option<seq<Candidate>>, sent: seq<Lookup>)
    ensures (found, sent) == Climb(database, Ladder(b, terms))
  {
    hide Ladder, Climb, CandidatesOf, Firsts;
    var ladder := Ladder(b, terms);
    sent := [];
    for i := 0 to |ladder|
      invariant sent == ladder[..i] && ClimbsFrom(database, ladder, i)
    {
      var answer := database(ladder[i]);
      if answer != Some([]) {
        ClimbStep(database, ladder, i);
      }
      sent := ladder[..i] + [ladder[i]];
      if answer.None? {
        return None, sent;
      }
      if answer.value != [] {
        found := Some(CandidatesOf(ladder[i].binding, Firsts(answer.value, MAX_ENTITY_CANDIDATES)));
        return found, sent;
      }
    }
    ClimbedAll(database, ladder);
    assert ladder[..|ladder|] == ladder;
    return Some([]), sent;
  }

  /** Nothing was found and nothing failed on the first `i` lookups of the ladder. */
  predicate ClimbsFrom(database: Database, ladder: seq<Lookup>, i: nat)
    requires i <= |ladder|
  {
    forall j :: 0 <= j < i ==> database(ladder[j]) == Some([])
  }

  /** A climb stops where the first lookup finds something or fails, and sends nothing after it. */
  lemma {:induction false} ClimbStep(database: Database, ladder: seq<Lookup>, i: nat)
    requires i < |ladder| && ClimbsFrom(database, ladder, i) && database(ladder[i]) != Some([])
    ensures Climb(database, ladder).1 == ladder[..i] + [ladder[i]]
    ensures Climb(database, ladder).0 ==
      var answer := database(ladder[i]);
      if answer.None? then None
      else Some(CandidatesOf(ladder[i].binding, Firsts(answer.value, MAX_ENTITY_CANDIDATES)))
  {
    hide CandidatesOf, Firsts;
    if i > 0 {
      assert database(ladder[0]) == Some([]);
      forall j | 0 <= j < i - 1 ensures database(ladder[1..][j]) == Some([]) {
        assert ladder[1..][j] == ladder[j + 1];
      }
      ClimbStep(database, ladder[1..], i - 1);
      assert [ladder[0]] + (ladder[1..][..i - 1] + [ladder[i]]) == ladder[..i] + [ladder[i]];
    }
  }

  lemma {:induction false} ClimbedAll(database: Database, ladder: seq<Lookup>)
    requires ClimbsFrom(database, ladder, |ladder|)
    ensures Climb(database, ladder) == (Some([]), ladder)
  {
    if ladder != [] {
      assert database(ladder[0]) == Some([]);
      forall j | 0 <= j < |ladder| - 1 ensures database(ladder[1..][j]) == Some([]) {
        assert ladder[1..][j] == ladder[j + 1];
      }
      ClimbedAll(database, ladder[1..]);
      assert ladder == [ladder[0]] + ladder[1..];
    }
  }

  // ---------------------------------------------------------------------------------------------
  // Matching what was found

  datatype Scored = Scored(candidate: Candidate, confidence: real)

  /** What makes two candidates the same choice. */
  function Identity(c: Candidate): (nat, string, (string, string, string), string) {
    (c.binding.entity, c.canonicalKey, (c.binding.schema, c.binding.table, c.binding.displayColumn), c.displayValue)
  }

  function ScoreOf(rules: TextRules, rung: Rung, question: string, c: Candidate): Option<real> {
    if rung == CANONICAL then
      if c.canonicalKey == "" then None
      else rules.score(rung, question, rules.normalize(c.canonicalKey), c.canonicalKey)
    else rules.score(rung, question, rules.normalize(c.displayValue), c.displayValue)
  }

  predicate Seen(matches: seq<Scored>, c: Candidate) {
    exists i :: 0 <= i < |matches| && Identity(matches[i].candidate) == Identity(c)
  }

  /** Every candidate that scores on this rung, each choice once, in order. */
  function Matching(rules: TextRules, rung: Rung, question: string, cs: seq<Candidate>): seq<Scored> {
    if cs == [] then []
    else
      var before, last := Matching(rules, rung, question, cs[..|cs| - 1]), cs[|cs| - 1];
      var score := ScoreOf(rules, rung, question, last);
      if score.None? || Seen(before, last) then before else before + [Scored(last, score.value)]
  }

  method MatchCandidates(rules: TextRules, rung: Rung, question: string, cs: seq<Candidate>)
    returns (matches: seq<Scored>)
    ensures matches == Matching(rules, rung, question, cs)
  {
    hide ScoreOf, Seen;
    matches := [];
    for i := 0 to |cs|
      invariant matches == Matching(rules, rung, question, cs[..i])
    {
      assert cs[..i + 1][..i] == cs[..i];
      var score := ScoreOf(rules, rung, question, cs[i]);
      if score.Some? && !Seen(matches, cs[i]) {
        matches := matches + [Scored(cs[i], score.value)];
      }
    }
    assert cs[..|cs|] == cs;
  }

  /** The order of the choices: most confident first, then by key and by label. */
  predicate Precedes(a: Scored, b: Scored) {
    || a.confidence > b.confidence
    || (a.confidence == b.confidence
        && a.candidate.canonicalKey != b.candidate.canonicalKey
        && AtMost(a.candidate.canonicalKey, b.candidate.canonicalKey))
    || (a.confidence == b.confidence && a.candidate.canonicalKey == b.candidate.canonicalKey
        && AtMost(a.candidate.displayValue, b.candidate.displayValue))
  }

  function Place(x: Scored, s: seq<Scored>): (r: seq<Scored>)
    ensures multiset(r) == multiset{x} + multiset(s)
  {
    if s == [] || Precedes(x, s[0]) then [x] + s
    else
      assert s == [s[0]] + s[1..];
      [s[0]] + Place(x, s[1..])
  }

  function Ranked(s: seq<Scored>): (r: seq<Scored>)
    ensures multiset(r) == multiset(s)
  {
    if s == [] then []
    else
      assert s == [s[0]] + s[1..];
      Place(s[0], Ranked(s[1..]))
  }

  ghost predicate InOrder(s: seq<Scored>) {
    forall i, j :: 0 <= i < j < |s| ==> Precedes(s[i], s[j])
  }

  lemma {:induction false} OrderCarries(a: Scored, b: Scored, c: Scored)
    ensures Precedes(a, b) || Precedes(b, a)
    ensures Precedes(a, b) && Precedes(b, c) ==> Precedes(a, c)
  {
    var x, y, z := a.candidate, b.candidate, c.candidate;
    AtMostTotal(x.canonicalKey, y.canonicalKey);
    AtMostTotal(y.canonicalKey, z.canonicalKey);
    AtMostTotal(x.displayValue, y.displayValue);
    if AtMost(x.canonicalKey, y.canonicalKey) && AtMost(y.canonicalKey, z.canonicalKey) {
      AtMostTransitive(x.canonicalKey, y.canonicalKey, z.canonicalKey);
    }
    if AtMost(x.displayValue, y.displayValue) && AtMost(y.displayValue, z.displayValue) {
      AtMostTransitive(x.displayValue, y.displayValue, z.displayValue);
    }
    hide AtMost;
  }

  lemma {:induction false} PlaceInOrder(x: Scored, s: seq<Scored>)
    requires InOrder(s)
    ensures InOrder(Place(x, s))
  {
    hide Precedes;
    var r := Place(x, s);
    if s == [] {
    } else if Precedes(x, s[0]) {
      forall j | 0 < j < |r| ensures Precedes(x, r[j]) {
        OrderCarries(x, s[0], r[j]);
        assert r[j] == s[j - 1];
      }
    } else {
      OrderCarries(s[0], x, x);
      PlaceInOrder(x, s[1..]);
      forall j | 0 < j < |r| ensures Precedes(s[0], r[j]) {
        assert r[j] == Place(x, s[1..])[j - 1] && r[j] in multiset(Place(x, s[1..]));
      }
    }
  }

  /** The most confident choices come first, and equally confident ones by key and then by label. */
  lemma {:induction false} RankedInOrder(s: seq<Scored>)
    ensures InOrder(Ranked(s)) && multiset(Ranked(s)) == multiset(s)
  {
    hide Precedes, Place;
    if s != [] {
      RankedInOrder(s[1..]);
      PlaceInOrder(s[0], Ranked(s[1..]));
    }
  }

  function FirstRung(rules: TextRules, question: string, cs: seq<Candidate>, rungs: seq<Rung>): seq<Scored> {
    if rungs == [] then []
    else
      var matches := Matching(rules, rungs[0], question, cs);
      if matches != [] then matches else FirstRung(rules, question, cs, rungs[1..])
  }

  function Unscored(s: seq<Scored>): (cs: seq<Candidate>)
    ensures |cs| == |s| && forall i :: 0 <= i < |cs| ==> cs[i] == s[i].candidate
  {
    seq(|s|, i requires 0 <= i < |s| => s[i].candidate)
  }

  const RUNGS := [CANONICAL, EXACT, PREFIX, FUZZY]

  /** The choices left of what the lookups found: those of the strictest rung that has any. */
  function Resolved(rules: TextRules, text: string, cs: seq<Candidate>): seq<Candidate> {
    if rules.normalize(text) == "" then []
    else Unscored(Firsts(Ranked(FirstRung(rules, rules.normalize(text), cs, RUNGS)), MAX_ENTITY_CANDIDATES))
  }

  /** The candidate scores on this rung: by its key on the first, if it has one, and by its label on the others. */
  ghost predicate Scores(rules: TextRules, rung: Rung, question: string, c: Candidate, confidence: real) {
    if rung.CANONICAL? then
      c.canonicalKey != "" && rules.score(rung, question, rules.normalize(c.canonicalKey), c.canonicalKey) == Some(confidence)
    else rules.score(rung, question, rules.normalize(c.displayValue), c.displayValue) == Some(confidence)
  }

  /** One candidate more: it is added with its score, unless it has none or its choice is already there. */
  lemma {:induction false} MatchingStep(rules: TextRules, rung: Rung, question: string, cs: seq<Candidate>)
    requires cs != []
    ensures var n := |cs| - 1;
      var before, after := Matching(rules, rung, question, cs[..n]), Matching(rules, rung, question, cs);
      && before <= after
      && (forall x :: x in after ==> x in before || (x.candidate == cs[n] && Scores(rules, rung, question, cs[n], x.confidence)))
      && (forall confidence :: Scores(rules, rung, question, cs[n], confidence) ==> Seen(after, cs[n]))
  {
    var n := |cs| - 1;
    var before, after := Matching(rules, rung, question, cs[..n]), Matching(rules, rung, question, cs);
    var score := ScoreOf(rules, rung, question, cs[n]);
    assert forall confidence :: Scores(rules, rung, question, cs[n], confidence) <==> score == Some(confidence);
    hide ScoreOf, Scores, Identity;
    if score.Some? && !Seen(before, cs[n]) {
      assert after[|before|].candidate == cs[n];
    }
  }

  lemma {:induction false} SeenAmongMore(before: seq<Scored>, after: seq<Scored>, c: Candidate)
    requires before <= after && Seen(before, c)
    ensures Seen(after, c)
  {
    hide Identity;
    var i :| 0 <= i < |before| && Identity(before[i].candidate) == Identity(c);
    assert after[i] == before[i];
  }

  /** The matches of a rung are candidates that score there, and every choice that scores is among them. */
  lemma {:induction false} MatchingExactly(rules: TextRules, rung: Rung, question: string, cs: seq<Candidate>)
    ensures forall x :: x in Matching(rules, rung, question, cs) ==>
      x.candidate in cs && Scores(rules, rung, question, x.candidate, x.confidence)
    ensures forall c, confidence :: c in cs && Scores(rules, rung, question, c, confidence) ==>
      Seen(Matching(rules, rung, question, cs), c)
  {
    hide Scores, Seen;
    if cs != [] {
      var init := cs[..|cs| - 1];
      MatchingExactly(rules, rung, question, init);
      MatchingStep(rules, rung, question, cs);
      hide Matching;
      assert cs == init + [cs[|cs| - 1]];
      forall c, confidence | c in init && Scores(rules, rung, question, c, confidence)
        ensures Seen(Matching(rules, rung, question, cs), c)
      {
        SeenAmongMore(Matching(rules, rung, question, init), Matching(rules, rung, question, cs), c);
      }
    }
  }

  /** `RUNGS[k]` is the strictest rung on which any candidate scores. */
  ghost predicate Strictest(rules: TextRules, question: string, cs: seq<Candidate>, rungs: seq<Rung>, k: int) {
    && 0 <= k < |rungs| && Matching(rules, rungs[k], question, cs) != []
    && forall j :: 0 <= j < k ==> Matching(rules, rungs[j], question, cs) == []
  }

  lemma {:induction false} FirstRungExactly(rules: TextRules, question: string, cs: seq<Candidate>, rungs: seq<Rung>)
    ensures forall k :: Strictest(rules, question, cs, rungs, k) ==>
      FirstRung(rules, question, cs, rungs) == Matching(rules, rungs[k], question, cs)
    ensures (forall k :: !Strictest(rules, question, cs, rungs, k)) ==> FirstRung(rules, question, cs, rungs) == []
  {
    hide Matching;
    if rungs != [] {
      FirstRungExactly(rules, question, cs, rungs[1..]);
      if Matching(rules, rungs[0], question, cs) != [] {
        assert Strictest(rules, question, cs, rungs, 0);
      } else {
        forall k ensures k > 0 ==>
          (Strictest(rules, question, cs, rungs, k) <==> Strictest(rules, question, cs, rungs[1..], k - 1))
        {
          assert forall j :: 0 < j < |rungs| ==> rungs[j] == rungs[1..][j - 1];
        }
        if k :| Strictest(rules, question, cs, rungs[1..], k) {
          assert Strictest(rules, question, cs, rungs, k + 1);
        }
      }
    }
  }

  /**
   * The choices are the best five of the strictest rung on which any candidate scores: by key, exactly by
   * label, by prefix, and loosely, in that order. A looser rung never overrides a stricter one.
   */
  lemma {:induction false} ResolvedExactly(rules: TextRules, text: string, cs: seq<Candidate>)
    ensures RUNGS == [CANONICAL, EXACT, PREFIX, FUZZY]
    ensures var question := rules.normalize(text);
      && (question == "" ==> Resolved(rules, text, cs) == [])
      && (forall k :: question != "" && Strictest(rules, question, cs, RUNGS, k) ==>
            Resolved(rules, text, cs)
            == Unscored(Firsts(Ranked(Matching(rules, RUNGS[k], question, cs)), MAX_ENTITY_CANDIDATES)))
      && ((forall k :: !Strictest(rules, question, cs, RUNGS, k)) ==> Resolved(rules, text, cs) == [])
  {
    FirstRungExactly(rules, rules.normalize(text), cs, RUNGS);
    hide FirstRung, Strictest, Matching;
    assert Ranked([]) == [];
  }

  method ResolveCandidates(rules: TextRules, text: string, cs: seq<Candidate>) returns (choices: seq<Candidate>)
    ensures choices == Resolved(rules, text, cs)
  {
    hide Matching, Ranked, Unscored;
    var question := rules.normalize(text);
    if question == "" {
      return [];
    }
    for i := 0 to |RUNGS|
      invariant FirstRung(rules, question, cs, RUNGS) == FirstRung(rules, question, cs, RUNGS[i..])
    {
      var matches := MatchCandidates(rules, RUNGS[i], question, cs);
      assert RUNGS[i..][1..] == RUNGS[i + 1..];
      if matches != [] {
        return Unscored(Firsts(Ranked(matches), MAX_ENTITY_CANDIDATES));
      }
    }
    assert Ranked([]) == [];
    return [];
  }

  // ---------------------------------------------------------------------------------------------
  // Resolving a question

  /** The data source as one request sees it. */
  datatype Source = Source(rules: TextRules, model: Model, tables: Authorized, database: Database)

  function Reachable(s: Source, concept: Option<string>): seq<Binding> {
    Bindings(s.rules, s.model, s.tables, concept)
  }

  /** The choices for a text, unless a lookup fails, and the lookups sent. */
  function Resolve(s: Source, text: string, concept: Option<string>): (Option<seq<Candidate>>, seq<Lookup>) {
    var bindings := Reachable(s, concept);
    if bindings == [] then (Some([]), [])
    else
      var found := ClimbAll(s.database, bindings, Terms(s.rules.kinds, text));
      (if found.0.None? then None else Some(Resolved(s.rules, text, found.0.value)), found.1)
  }

  method ResolveValues(s: Source, text: string, concept: Option<string>)
    returns (choices: Option<seq<Candidate>>, sent: seq<Lookup>)
    ensures (choices, sent) == Resolve(s, text, concept)
  {
    hide Reachable, Resolved, Climb, Terms;
    var bindings := Reachable(s, concept);
    sent := [];
    if bindings == [] {
      return Some([]), sent;
    }
    var terms := FindTerms(s.rules.kinds, text);
    var candidates: seq<Candidate> := [];
    assert bindings[0..] == bindings;
    NothingJoined(ClimbAll(s.database, bindings, terms));
    for i := 0 to |bindings|
      invariant ClimbAll(s.database, bindings, terms) == Joined(candidates, sent, ClimbAll(s.database, bindings[i..], terms))
    {
      assert bindings[i..][1..] == bindings[i + 1..];
      var found, more := LookUp(s.database, bindings[i], terms);
      JoinedTwice(candidates, sent, found, more, ClimbAll(s.database, bindings[i + 1..], terms));
      sent := sent + more;
      if found.None? {
        return None, sent;
      }
      candidates := candidates + found.value;
    }
    assert candidates + [] == candidates && sent + [] == sent;
    var resolved := ResolveCandidates(s.rules, text, candidates);
    return Some(resolved), sent;
  }

  /** What was found and sent so far, followed by the rest. */
  function Joined(cs: seq<Candidate>, sent: seq<Lookup>, rest: (Option<seq<Candidate>>, seq<Lookup>)):
    (Option<seq<Candidate>>, seq<Lookup>)
  {
    (if rest.0.None? then None else Some(cs + rest.0.value), sent + rest.1)
  }

  lemma {:induction false} NothingJoined(rest: (Option<seq<Candidate>>, seq<Lookup>))
    ensures Joined([], [], rest) == rest
  {
    assert [] + rest.1 == rest.1;
    if rest.0.Some? {
      assert [] + rest.0.value == rest.0.value;
    }
  }

  lemma {:induction false} JoinedTwice(
    cs: seq<Candidate>, sent: seq<Lookup>, found: Option<seq<Candidate>>, more: seq<Lookup>,
    rest: (Option<seq<Candidate>>, seq<Lookup>))
    ensures found.Some? ==> Joined(cs, sent, Joined(found.value, more, rest)) == Joined(cs + found.value, sent + more, rest)
  {
    if found.Some? && rest.0.Some? {
      assert cs + (found.value + rest.0.value) == cs + found.value + rest.0.value;
    }
    assert sent + (more + rest.1) == sent + more + rest.1;
  }

  // ---------------------------------------------------------------------------------------------
  // What is sent

  /** A lookup this request may send: over a reviewed, authorized binding, for a fragment of the text. */
  ghost predicate Trusted(s: Source, text: string, concept: Option<string>, l: Lookup) {
    l.binding in Reachable(s, concept) && l.term in Terms(s.rules.kinds, text)
  }

  /** Three characters or more are left without the outer blanks. */
  predicate Searchable(s: Source, text: string) {
    |Strip(s.rules.kinds, text)| >= MIN_SEARCH_LENGTH
  }

  lemma {:induction false} ClimbSends(database: Database, ladder: seq<Lookup>)
    ensures Climb(database, ladder).1 <= ladder
    ensures ladder != [] ==> Climb(database, ladder).1 != []
  {
    if ladder != [] {
      ClimbSends(database, ladder[1..]);
      assert ladder == [ladder[0]] + ladder[1..];
    }
  }

  lemma {:induction false} ClimbAllSends(database: Database, bindings: seq<Binding>, terms: seq<string>)
    ensures forall l :: l in ClimbAll(database, bindings, terms).1 ==> l.binding in bindings && l.term in terms
    ensures ClimbAll(database, bindings, terms).1 != [] <==> bindings != [] && terms != []
  {
    if bindings != [] {
      var ladder := Ladder(bindings[0], terms);
      ClimbSends(database, ladder);
      ClimbAllSends(database, bindings[1..], terms);
      hide Climb, Ladder;
      forall l | l in Climb(database, ladder).1 ensures l.binding in bindings && l.term in terms {
        assert l in ladder;
      }
    }
  }

  lemma {:induction false} ClimbAllIsBounded(database: Database, bindings: seq<Binding>, terms: seq<string>)
    requires |terms| <= MAX_TERMS
    ensures |ClimbAll(database, bindings, terms).1| <= 32 * |bindings|
  {
    if bindings != [] {
      ClimbSends(database, Ladder(bindings[0], terms));
      ClimbAllIsBounded(database, bindings[1..], terms);
      hide Climb;
    }
  }

  /**
   * Whatever the text and whatever the data source answers: only trusted lookups are sent, at most
   * 32 for each binding, each for the whole text or up to four of its words, and any at all exactly when
   * there is a binding and the text has three characters or more between its outer blanks.
   */
  lemma {:induction false} OnlyTrustedLookups(s: Source, text: string, concept: Option<string>)
    ensures forall l :: l in Resolve(s, text, concept).1 ==>
      && Trusted(s, text, concept, l) && Reviewed(s.rules, s.model, s.tables, l.binding)
      && |l.term| >= MIN_SEARCH_LENGTH && IsFragment(s.rules.kinds, text, l.term)
    ensures |Resolve(s, text, concept).1| <= 32 * |Reachable(s, concept)|
    ensures Resolve(s, text, concept).1 != [] <==> Reachable(s, concept) != [] && Searchable(s, text)
  {
    var bindings, terms := Reachable(s, concept), Terms(s.rules.kinds, text);
    ClimbAllSends(s.database, bindings, terms);
    TermsAreFragments(s.rules.kinds, text);
    ClimbAllIsBounded(s.database, bindings, terms);
    BindingsAreReviewed(s.rules, s.model, s.tables, concept, s.model.entities);
    hide ClimbAll, Terms, Reviewed, BindingsOf, IsFragment, Strip;
  }

  /**
   * The whole text is the parameter of a lookup exactly when any lookup is sent: it is the first
   * fragment of the first binding, so the first thing the data source is asked for.
   */
  lemma {:induction false} WholeQuestionIsSentExactly(s: Source, text: string, concept: Option<string>)
    ensures var sent, whole := Resolve(s, text, concept).1, Strip(s.rules.kinds, text);
      && ((exists l :: l in sent && l.term == whole) <==> Reachable(s, concept) != [] && Searchable(s, text))
      && (Reachable(s, concept) != [] && Searchable(s, text) ==>
            sent != [] && sent[0] == Lookup(Reachable(s, concept)[0], KeyEquals, whole))
  {
    OnlyTrustedLookups(s, text, concept);
    TermsAreFragments(s.rules.kinds, text);
    hide Terms, Reviewed, BindingsOf, IsFragment, Strip, ClimbAll;
    var bindings, terms := Reachable(s, concept), Terms(s.rules.kinds, text);
    if bindings != [] && terms != [] {
      FirstSent(s.database, bindings, terms);
    }
  }

  lemma {:induction false} FirstSent(database: Database, bindings: seq<Binding>, terms: seq<string>)
    requires bindings != [] && terms != []
    ensures var sent := ClimbAll(database, bindings, terms).1;
      sent != [] && sent[0] == Lookup(bindings[0], KeyEquals, terms[0])
  {
    var ladder := Ladder(bindings[0], terms);
    ClimbSends(database, ladder);
    hide Climb;
    assert ladder[0] == LookupsWith(bindings[0], KeyEquals, terms)[0];
  }

  /** Narrowing to a concept can only leave bindings out. */
  lemma {:induction false} ConceptNarrows(s: Source, concept: Option<string>)
    ensures Reachable(s, concept) != [] ==> Reachable(s, None) != []
  {
    BindingsAreReviewed(s.rules, s.model, s.tables, concept, s.model.entities);
    hide Reviewed, BindingsOf;
    if Reachable(s, concept) != [] {
      assert Reachable(s, concept)[0] in Reachable(s, None);
    }
  }

  // ---------------------------------------------------------------------------------------------
  // What comes back

  /** The candidate is a row the data source returned for a lookup that was sent. */
  ghost predicate WasFound(database: Database, sent: seq<Lookup>, c: Candidate) {
    exists l :: l in sent && l.binding == c.binding && database(l).Some?
      && Found(c.canonicalKey, c.displayValue) in database(l).value
  }

  lemma {:induction false} ClimbFinds(database: Database, ladder: seq<Lookup>)
    ensures Climb(database, ladder).0.Some? ==>
      forall c :: c in Climb(database, ladder).0.value ==> WasFound(database, Climb(database, ladder).1, c)
  {
    if ladder != [] {
      ClimbFinds(database, ladder[1..]);
      var answer := database(ladder[0]);
      if answer == Some([]) {
        var rest := Climb(database, ladder[1..]);
        if rest.0.Some? {
          forall c | c in rest.0.value ensures WasFound(database, [ladder[0]] + rest.1, c) {
            FoundAmongMore(database, [ladder[0]], rest.1, [], c);
          }
        }
      } else if answer.Some? {
        forall c | c in Climb(database, ladder).0.value ensures WasFound(database, [ladder[0]], c) {
          assert ladder[0] in [ladder[0]];
        }
      }
    }
  }

  lemma {:induction false} FoundAmongMore(
    database: Database, before: seq<Lookup>, sent: seq<Lookup>, after: seq<Lookup>, c: Candidate)
    requires WasFound(database, sent, c)
    ensures WasFound(database, before + sent, c) && WasFound(database, sent + after, c)
  {
    var l :| l in sent && l.binding == c.binding && database(l).Some?
      && Found(c.canonicalKey, c.displayValue) in database(l).value;
    assert l in before + sent && l in sent + after;
  }

  lemma {:induction false} ClimbAllFinds(database: Database, bindings: seq<Binding>, terms: seq<string>)
    ensures var r := ClimbAll(database, bindings, terms);
      r.0.Some? ==> forall c :: c in r.0.value ==> WasFound(database, r.1, c)
  {
    hide WasFound, Ladder, Climb;
    if bindings != [] {
      var one, rest := Climb(database, Ladder(bindings[0], terms)), ClimbAll(database, bindings[1..], terms);
      ClimbFinds(database, Ladder(bindings[0], terms));
      ClimbAllFinds(database, bindings[1..], terms);
      if one.0.Some? && rest.0.Some? {
        forall c | c in one.0.value + rest.0.value ensures WasFound(database, one.1 + rest.1, c) {
          if c in one.0.value {
            FoundAmongMore(database, [], one.1, rest.1, c);
          } else {
            FoundAmongMore(database, one.1, rest.1, [], c);
          }
        }
      }
    }
  }

  ghost predicate Apart(x: Scored, s: seq<Scored>) {
    forall y :: y in s ==> Identity(y.candidate) != Identity(x.candidate)
  }

  /** No two of these are the same choice. */
  ghost predicate DistinctChoices(s: seq<Scored>) {
    s != [] ==> Apart(s[0], s[1..]) && DistinctChoices(s[1..])
  }

  lemma {:induction false} DistinctAtEnd(s: seq<Scored>, x: Scored)
    requires DistinctChoices(s) && Apart(x, s)
    ensures DistinctChoices(s + [x])
  {
    hide Identity;
    if s != [] {
      DistinctAtEnd(s[1..], x);
      assert (s + [x])[1..] == s[1..] + [x];
    }
  }

  lemma {:induction false} MatchingKeeps(rules: TextRules, rung: Rung, question: string, cs: seq<Candidate>)
    ensures DistinctChoices(Matching(rules, rung, question, cs))
    ensures forall x :: x in Matching(rules, rung, question, cs) ==> x.candidate in cs
  {
    hide ScoreOf, Identity, DistinctChoices;
    if cs == [] {
      NoChoices();
    } else {
      var before, last := Matching(rules, rung, question, cs[..|cs| - 1]), cs[|cs| - 1];
      MatchingKeeps(rules, rung, question, cs[..|cs| - 1]);
      var score := ScoreOf(rules, rung, question, last);
      if score.Some? && !Seen(before, last) {
        DistinctAtEnd(before, Scored(last, score.value));
      }
    }
  }

  lemma {:induction false} PlaceKeepsDistinct(x: Scored, s: seq<Scored>)
    requires Apart(x, s) && DistinctChoices(s)
    ensures DistinctChoices(Place(x, s))
  {
    hide Identity, Precedes;
    if s == [] || Precedes(x, s[0]) {
      assert ([x] + s)[1..] == s;
    } else {
      var rest := Place(x, s[1..]);
      PlaceKeepsDistinct(x, s[1..]);
      forall y | y in rest ensures Identity(y.candidate) != Identity(s[0].candidate) {
        assert y in multiset(rest);
      }
      assert ([s[0]] + rest)[1..] == rest;
    }
  }

  lemma {:induction false} RankedKeepsDistinct(s: seq<Scored>)
    requires DistinctChoices(s)
    ensures DistinctChoices(Ranked(s))
  {
    hide Identity, Place;
    if s != [] {
      RankedKeepsDistinct(s[1..]);
      var rest := Ranked(s[1..]);
      forall y | y in rest ensures Identity(y.candidate) != Identity(s[0].candidate) {
        assert y in multiset(rest);
      }
      PlaceKeepsDistinct(s[0], rest);
    }
  }

  lemma {:induction false} DistinctAt(s: seq<Scored>, i: nat, j: nat)
    requires DistinctChoices(s) && i < j < |s|
    ensures Identity(s[i].candidate) != Identity(s[j].candidate)
  {
    hide Identity;
    if i == 0 {
      assert s[j] in s[1..];
    } else {
      DistinctAt(s[1..], i - 1, j - 1);
    }
  }

  lemma {:induction false} FirstRungKeeps(rules: TextRules, question: string, cs: seq<Candidate>, rungs: seq<Rung>)
    ensures DistinctChoices(FirstRung(rules, question, cs, rungs))
    ensures forall x :: x in FirstRung(rules, question, cs, rungs) ==> x.candidate in cs
  {
    hide DistinctChoices, Matching;
    if rungs == [] {
      NoChoices();
    } else {
      MatchingKeeps(rules, rungs[0], question, cs);
      FirstRungKeeps(rules, question, cs, rungs[1..]);
    }
  }

  lemma {:induction false} NoChoices()
    ensures DistinctChoices([])
  {
  }

  lemma {:induction false} TopChoices(ranked: seq<Scored>, cs: seq<Candidate>)
    requires DistinctChoices(ranked) && forall x :: x in ranked ==> x.candidate in cs
    ensures var r := Unscored(Firsts(ranked, MAX_ENTITY_CANDIDATES));
      && |r| <= MAX_ENTITY_CANDIDATES
      && (forall c :: c in r ==> c in cs)
      && (forall i, j :: 0 <= i < j < |r| ==> Identity(r[i]) != Identity(r[j]))
  {
    hide Identity, Unscored, DistinctChoices;
    var top := Firsts(ranked, MAX_ENTITY_CANDIDATES);
    forall i | 0 <= i < |top| ensures top[i] in ranked && top[i] == ranked[i] {
    }
    forall i, j | 0 <= i < j < |top| ensures Identity(top[i].candidate) != Identity(top[j].candidate) {
      DistinctAt(ranked, i, j);
    }
  }

  lemma {:induction false} RankedCandidates(s: seq<Scored>, cs: seq<Candidate>)
    requires forall x :: x in s ==> x.candidate in cs
    ensures forall x :: x in Ranked(s) ==> x.candidate in cs
  {
    hide Ranked;
    forall x | x in Ranked(s) ensures x.candidate in cs {
      assert x in multiset(Ranked(s));
    }
  }

  /** The choices are among the candidates, at most five, and no two the same. */
  lemma {:induction false} ResolvedKeeps(rules: TextRules, text: string, cs: seq<Candidate>)
    ensures var r := Resolved(rules, text, cs);
      && |r| <= MAX_ENTITY_CANDIDATES
      && (forall c :: c in r ==> c in cs)
      && (forall i, j :: 0 <= i < j < |r| ==> Identity(r[i]) != Identity(r[j]))
  {
    hide Identity, Ranked, FirstRung, Unscored, Firsts, DistinctChoices;
    if rules.normalize(text) != "" {
      var matches := FirstRung(rules, rules.normalize(text), cs, RUNGS);
      FirstRungKeeps(rules, rules.normalize(text), cs, RUNGS);
      RankedKeepsDistinct(matches);
      RankedCandidates(matches, cs);
      TopChoices(Ranked(matches), cs);
    }
  }

  /**
   * A resolution offers at most five choices, no two the same, each of them a row that a lookup of
   * this very call returned. So there is nothing to choose from unless something was looked up.
   */
  lemma {:induction false} ChoicesWereFound(s: Source, text: string, concept: Option<string>)
    ensures var r := Resolve(s, text, concept);
      r.0.Some? ==>
        && |r.0.value| <= MAX_ENTITY_CANDIDATES
        && (forall c :: c in r.0.value ==> WasFound(s.database, r.1, c))
        && (forall i, j :: 0 <= i < j < |r.0.value| ==> Identity(r.0.value[i]) != Identity(r.0.value[j]))
        && (r.0.value != [] ==> r.1 != [])
  {
    var found := ClimbAll(s.database, Reachable(s, concept), Terms(s.rules.kinds, text));
    ClimbAllFinds(s.database, Reachable(s, concept), Terms(s.rules.kinds, text));
    if found.0.Some? {
      ResolvedKeeps(s.rules, text, found.0.value);
    }
    hide ClimbAll, Resolved, Identity, Reachable, Terms;
    var r := Resolve(s, text, concept);
    if r.0.Some? && r.0.value != [] {
      assert WasFound(s.database, r.1, r.0.value[0]);
    }
  }
}
