/**
 * Conversation transcripts: turns are appended in order, a page is read from the end backwards, and
 * what an answer stores is cut down until it fits.
 */
module Conversations {
  import opened Wrappers

  const MAX_PREVIEW_ROWS := 200
  const MAX_PAYLOAD_BYTES := 256000
  const MAX_PAGE := 200

  // ---------------------------------------------------------------------------------------------
  // What an answer stores

  datatype Json = List(items: seq<Json>) | Bool(b: bool) | Other(text: string)

  type Payload = map<string, Json>

  predicate HasRows(p: Payload) {
    "rows" in p && p["rows"].List?
  }

  function WithRows(p: Payload, rows: seq<Json>): Payload {
    p["rows" := List(rows)]["rows_truncated" := Bool(true)]
  }

  function Capped(p: Payload): Payload {
    if HasRows(p) && |p["rows"].items| > MAX_PREVIEW_ROWS
    then WithRows(p, p["rows"].items[..MAX_PREVIEW_ROWS])
    else p
  }

  function LastResort(p: Payload): Payload {
    map["columns" := if "columns" in p then p["columns"] else List([]),
        "rows" := List([]),
        "rows_truncated" := Bool(true)]
  }

  /** The payload with half its rows, a quarter of them, and so on down to one. */
  function Halvings(p: Payload): seq<Payload>
    decreases if HasRows(p) then |p["rows"].items| else 0
  {
    if !HasRows(p) || |p["rows"].items| <= 1 then []
    else
      var half := WithRows(p, p["rows"].items[..|p["rows"].items| / 2]);
      [half] + Halvings(half)
  }

  /** Everything that may be stored short of the last resort, most generous first. */
  function Previews(p: Payload): seq<Payload> {
    [Capped(p)] + Halvings(Capped(p)) + [WithRows(Capped(p), [])]
  }

  predicate Fits(size: Payload -> nat, p: Payload)
    ensures Fits(size, p) <==> size(p) <= MAX_PAYLOAD_BYTES
  {
    size(p) <= MAX_PAYLOAD_BYTES
  }

  function FirstFit(size: Payload -> nat, ps: seq<Payload>, otherwise: Payload): Payload {
    if ps == [] then otherwise
    else if Fits(size, ps[0]) then ps[0]
    else FirstFit(size, ps[1..], otherwise)
  }

  /** What is stored of a payload: the most generous preview that fits, or else the last resort. */
  function Bounded(size: Payload -> nat, p: Payload): Payload {
    FirstFit(size, Previews(p), LastResort(p))
  }

  /** `_size` of a payload is a parameter; nothing is supposed about it. */
  method BoundedPayload(size: Payload -> nat, payload: Payload) returns (stored: Payload)
    ensures stored == Bounded(size, payload)
  {
    hide Halvings, LastResort;
    var capped := Capped(payload);
    ghost var dropped := WithRows(capped, []);
    if Fits(size, capped) {
      return capped;
    }
    CappingKeepsLastResort(payload);
    var shrunk := capped;
    ghost var rest := [shrunk] + Halvings(shrunk) + [dropped];
    if HasRows(capped) {
      var kept := capped["rows"].items;
      while |kept| > 1 && !Fits(size, shrunk)
        invariant HasRows(shrunk) && kept == shrunk["rows"].items
        invariant WithRows(shrunk, []) == dropped && LastResort(shrunk) == LastResort(payload)
        invariant rest == [shrunk] + Halvings(shrunk) + [dropped]
        invariant Bounded(size, payload) == FirstFit(size, rest, LastResort(payload))
        decreases |kept|
      {
        HalvingStep(shrunk);
        LastResortIgnoresRows(shrunk, kept[..|kept| / 2]);
        kept := kept[..|kept| / 2];
        shrunk := WithRows(shrunk, kept);
        assert rest[1..] == [shrunk] + Halvings(shrunk) + [dropped];
        rest := rest[1..];
        assert WithRows(shrunk, []) == dropped;
      }
    }
    if Fits(size, shrunk) {
      return shrunk;
    }
    NothingToHalve(shrunk);
    assert rest == [shrunk, dropped];
    FirstFitOfTwo(size, shrunk, dropped, LastResort(payload));
    LastResortIgnoresRows(shrunk, []);
    shrunk := WithRows(shrunk, []);
    assert shrunk == dropped;
    return if Fits(size, shrunk) then shrunk else LastResort(shrunk);
  }

  lemma {:induction false} HalvingStep(p: Payload)
    requires HasRows(p) && |p["rows"].items| > 1
    ensures var half := WithRows(p, p["rows"].items[..|p["rows"].items| / 2]);
      Halvings(p) == [half] + Halvings(half)
  {
  }

  lemma {:induction false} NothingToHalve(p: Payload)
    requires !HasRows(p) || |p["rows"].items| <= 1
    ensures Halvings(p) == []
  {
  }

  lemma {:induction false} LastResortIgnoresRows(p: Payload, rows: seq<Json>)
    ensures LastResort(WithRows(p, rows)) == LastResort(p)
  {
  }

  lemma {:induction false} FirstFitOfTwo(size: Payload -> nat, p: Payload, q: Payload, otherwise: Payload)
    ensures FirstFit(size, [p, q], otherwise) ==
      if Fits(size, p) then p else if Fits(size, q) then q else otherwise
  {
    assert [p, q][1..] == [q];
    assert FirstFit(size, [q], otherwise) == if Fits(size, q) then q else otherwise;
  }

  lemma {:induction false} CappingKeepsLastResort(p: Payload)
    ensures LastResort(Capped(p)) == LastResort(p)
  {
    if Capped(p) != p {
      LastResortIgnoresRows(p, p["rows"].items[..MAX_PREVIEW_ROWS]);
    }
  }

  /** `q` shows the same answer as `p`, with the rows cut to a prefix, and says so if it was cut. */
  ghost predicate CutsOnlyRows(p: Payload, q: Payload) {
    && (forall k :: k in p && k != "rows" && k != "rows_truncated" ==> k in q && q[k] == p[k])
    && (forall k :: k in q && k != "rows" && k != "rows_truncated" ==> k in p)
    && (q != p ==> HasRows(q) && "rows_truncated" in q && q["rows_truncated"] == Bool(true))
    && (q != p && HasRows(p) ==> q["rows"].items <= p["rows"].items)
    && (HasRows(q) ==> |q["rows"].items| <= MAX_PREVIEW_ROWS)
  }

  lemma {:induction false} CutOnce(p: Payload, q: Payload, rows: seq<Json>)
    requires CutsOnlyRows(p, q)
    requires rows == [] || (HasRows(q) && rows <= q["rows"].items)
    ensures CutsOnlyRows(p, WithRows(q, rows))
  {
    if HasRows(p) && HasRows(q) && q == p {
      assert rows <= p["rows"].items;
    }
  }

  lemma {:induction false} CappingCuts(p: Payload)
    ensures CutsOnlyRows(p, Capped(p))
  {
  }

  lemma {:induction false} HalvingsCut(p: Payload, q: Payload)
    requires CutsOnlyRows(p, q)
    ensures forall k :: 0 <= k < |Halvings(q)| ==> CutsOnlyRows(p, Halvings(q)[k])
    decreases if HasRows(q) then |q["rows"].items| else 0
  {
    if HasRows(q) && |q["rows"].items| > 1 {
      var half := WithRows(q, q["rows"].items[..|q["rows"].items| / 2]);
      CutOnce(p, q, q["rows"].items[..|q["rows"].items| / 2]);
      HalvingsCut(p, half);
      HalvingStep(q);
      hide *;
    }
  }

  lemma {:induction false} PreviewsCut(p: Payload)
    ensures forall k :: 0 <= k < |Previews(p)| ==> CutsOnlyRows(p, Previews(p)[k])
  {
    CappingCuts(p);
    HalvingsCut(p, Capped(p));
    CutOnce(p, Capped(p), []);
    hide CutsOnlyRows, Halvings, Capped, WithRows;
  }

  lemma {:induction false} FirstFitIsFirst(size: Payload -> nat, ps: seq<Payload>, otherwise: Payload)
    ensures
      || (exists k ::
            && 0 <= k < |ps| && FirstFit(size, ps, otherwise) == ps[k] && Fits(size, ps[k])
            && forall j :: 0 <= j < k ==> !Fits(size, ps[j]))
      || (FirstFit(size, ps, otherwise) == otherwise && forall j :: 0 <= j < |ps| ==> !Fits(size, ps[j]))
  {
    hide Fits;
    if ps != [] && !Fits(size, ps[0]) {
      FirstFitIsFirst(size, ps[1..], otherwise);
      hide FirstFit;
      if k :|
        && 0 <= k < |ps[1..]| && FirstFit(size, ps[1..], otherwise) == ps[1..][k] && Fits(size, ps[1..][k])
        && forall j :: 0 <= j < k ==> !Fits(size, ps[1..][j])
      {
        assert ps[k + 1] == ps[1..][k];
        assert forall j :: 0 < j < k + 1 ==> ps[j] == ps[1..][j - 1];
      } else {
        assert forall j :: 0 < j < |ps| ==> ps[j] == ps[1..][j - 1];
      }
    } else if ps != [] {
      assert Fits(size, ps[0]) && FirstFit(size, ps, otherwise) == ps[0];
    }
  }

  /** `n` halved `k` times, rounding down. */
  function Halved(n: nat, k: nat): (h: nat)
    ensures h <= n
  {
    if k == 0 then n else Halved(n / 2, k - 1)
  }

  /** The halvings keep half the rows, a quarter of them and so on, and end with one row. */
  lemma {:induction false} HalvingsExactly(p: Payload, k: nat)
    requires HasRows(p) && k < |Halvings(p)|
    ensures var rows := p["rows"].items;
      && Halved(|rows|, k + 1) >= 1 && Halvings(p)[k] == WithRows(p, rows[..Halved(|rows|, k + 1)])
      && (k == |Halvings(p)| - 1 ==> Halved(|rows|, k + 1) == 1)
    decreases k
  {
    var rows := p["rows"].items;
    var half := WithRows(p, rows[..|rows| / 2]);
    HalvingStep(p);
    if k > 0 {
      HalvingsExactly(half, k - 1);
      hide Halvings;
      KeptTwice(p, |rows| / 2, Halved(|rows| / 2, k));
    } else if |Halvings(half)| == 0 {
      assert |half["rows"].items| <= 1;
    }
  }

  lemma {:induction false} KeptTwice(p: Payload, m: nat, n: nat)
    requires HasRows(p) && n <= m <= |p["rows"].items|
    ensures WithRows(WithRows(p, p["rows"].items[..m]), p["rows"].items[..m][..n]) == WithRows(p, p["rows"].items[..n])
  {
    assert p["rows"].items[..m][..n] == p["rows"].items[..n];
  }

  /** The previews offered, most generous first: at most 200 rows, half of them and so on to one, and none. */
  lemma {:induction false} PreviewsExactly(p: Payload)
    ensures |Previews(p)| == 2 + |Halvings(Capped(p))| && Previews(p)[0] == Capped(p)
    ensures forall k :: 0 < k < |Previews(p)| - 1 ==> Previews(p)[k] == Halvings(Capped(p))[k - 1]
    ensures var last := Previews(p)[|Previews(p)| - 1];
      HasRows(last) && last["rows"].items == [] && last["rows_truncated"] == Bool(true)
    ensures HasRows(p) ==>
      && HasRows(Capped(p))
      && Capped(p)["rows"].items == p["rows"].items[..if |p["rows"].items| <= 200 then |p["rows"].items| else 200]
    ensures !HasRows(p) ==> Capped(p) == p && Halvings(Capped(p)) == []
    ensures LastResort(p).Keys == {"columns", "rows", "rows_truncated"}
    ensures LastResort(p)["rows"] == List([]) && LastResort(p)["rows_truncated"] == Bool(true)
    ensures LastResort(p)["columns"] == if "columns" in p then p["columns"] else List([])
  {
    hide Halvings;
    if !HasRows(p) {
      NothingToHalve(p);
    }
  }

  /**
   * What is stored fits the byte cap and differs from the payload only in showing fewer of its rows,
   * flagged as such; unless no preview fits, when it is the columns alone.
   */
  lemma {:induction false} StoredFitsOrIsLastResort(size: Payload -> nat, p: Payload)
    ensures var stored := Bounded(size, p);
      || (Fits(size, stored) && CutsOnlyRows(p, stored))
      || (stored == LastResort(p) && forall k :: 0 <= k < |Previews(p)| ==> !Fits(size, Previews(p)[k]))
  {
    PreviewsCut(p);
    FirstFitIsFirst(size, Previews(p), LastResort(p));
    hide Previews, LastResort, Fits, CutsOnlyRows, FirstFit;
  }

  /** The cap itself can be broken exactly when not even the columns alone are small enough. */
  lemma {:induction false} StoredExceedsCapExactly(size: Payload -> nat, p: Payload)
    ensures !Fits(size, Bounded(size, p)) <==>
      && !Fits(size, LastResort(p))
      && forall k :: 0 <= k < |Previews(p)| ==> !Fits(size, Previews(p)[k])
  {
    FirstFitIsFirst(size, Previews(p), LastResort(p));
    hide Previews, LastResort, Fits, FirstFit;
  }

  /** A payload within both caps is stored as it is. */
  lemma {:induction false} SmallPayloadIsKept(size: Payload -> nat, p: Payload)
    requires Fits(size, p)
    ensures Bounded(size, p) == p <==> (HasRows(p) ==> |p["rows"].items| <= MAX_PREVIEW_ROWS)
  {
    hide Halvings;
    assert Previews(p)[0] == Capped(p);
    if HasRows(p) && |p["rows"].items| > MAX_PREVIEW_ROWS {
      StoredFitsOrIsLastResort(size, p);
    }
  }

  /** Bounding what is already bounded changes nothing. */
  lemma {:induction false} BoundingTwiceIsOnce(size: Payload -> nat, p: Payload)
    ensures Bounded(size, Bounded(size, p)) == Bounded(size, p)
  {
    var stored := Bounded(size, p);
    StoredFitsOrIsLastResort(size, p);
    if Fits(size, stored) && CutsOnlyRows(p, stored) {
      SmallPayloadIsKept(size, stored);
    } else {
      BoundingLastResort(size, p);
    }
  }

  lemma {:induction false} BoundingLastResort(size: Payload -> nat, p: Payload)
    ensures Bounded(size, LastResort(p)) == LastResort(p)
  {
    var q := LastResort(p);
    assert HasRows(q) && Capped(q) == q && WithRows(q, []) == q && LastResort(q) == q;
    NothingToHalve(q);
    assert Previews(q) == [q, q];
    FirstFitOfTwo(size, q, q, q);
  }

  // ---------------------------------------------------------------------------------------------
  // Transcripts

  datatype Role = User | Assistant

  datatype Message = Message(
    conversation: nat, role: Role, sequence: int, content: string, payload: Payload, request: Option<string>)

  datatype Conversation = Conversation(
    id: nat, owner: string, title: string, archived: bool, updated: nat, messageCount: nat)

  datatype Turn = Turn(question: string, answer: string, payload: Payload, request: Option<string>)

  datatype Store = Store(conversations: map<nat, Conversation>, transcripts: map<nat, seq<Message>>)

  function TranscriptOf(store: Store, id: nat): seq<Message> {
    if id in store.transcripts then store.transcripts[id] else []
  }

  function Start(stored: seq<Message>): int {
    if stored == [] then 0 else stored[|stored| - 1].sequence + 1
  }

  /** The two messages a turn adds, numbered from `start`. */
  function TurnMessages(size: Payload -> nat, id: nat, start: int, turn: Turn): (pair: seq<Message>)
    ensures |pair| == 2
  {
    [Message(id, User, start, turn.question, map[], turn.request),
     Message(id, Assistant, start + 1, turn.answer, Bounded(size, turn.payload), turn.request)]
  }

  function Appended(size: Payload -> nat, store: Store, c: Conversation, turn: Turn, now: nat): Store {
    var stored := TranscriptOf(store, c.id);
    Store(store.conversations[c.id := c.(updated := now)],
          store.transcripts[c.id := stored + TurnMessages(size, c.id, Start(stored), turn)])
  }

  lemma {:induction false} AppendedIs(
    size: Payload -> nat, store: Store, c: Conversation, turn: Turn, now: nat, start: int, asked: Message, answered: Message)
    requires var s := if c.id in store.transcripts then store.transcripts[c.id] else [];
      start == if s == [] then 0 else s[|s| - 1].sequence + 1
    requires asked == Message(c.id, User, start, turn.question, map[], turn.request)
    requires answered == Message(c.id, Assistant, start + 1, turn.answer, Bounded(size, turn.payload), turn.request)
    ensures [asked, answered] == TurnMessages(size, c.id, Start(TranscriptOf(store, c.id)), turn)
    ensures var s := if c.id in store.transcripts then store.transcripts[c.id] else [];
      Appended(size, store, c, turn, now)
      == Store(store.conversations[c.id := c.(updated := now)], store.transcripts[c.id := s + [asked, answered]])
  {
    hide Bounded;
  }

  function Created(store: Store, c: Conversation): Store {
    Store(store.conversations[c.id := c], store.transcripts[c.id := TranscriptOf(store, c.id)])
  }

  /** A conversation is found by its owner only. */
  function Found(store: Store, id: nat, subject: string): Option<Conversation> {
    if id in store.conversations && store.conversations[id].owner == subject
    then Some(store.conversations[id].(messageCount := |TranscriptOf(store, id)|))
    else None
  }

  function Renamed(store: Store, id: nat, subject: string, title: string, now: nat): Store {
    var found := Found(store, id, subject);
    if found.None? then store
    else store.(conversations := store.conversations[id := found.value.(title := title, updated := now)])
  }

  function Archived(store: Store, id: nat, subject: string): Store {
    var found := Found(store, id, subject);
    if found.None? then store
    else store.(conversations := store.conversations[id := found.value.(archived := true)])
  }

  // ---------------------------------------------------------------------------------------------
  // Pages

  /** The messages before `before`, as the filter reads them. */
  function Older(stored: seq<Message>, before: Option<int>): seq<Message> {
    if before.None? || stored == [] then stored
    else (if stored[0].sequence < before.value then [stored[0]] else []) + Older(stored[1..], before)
  }

  /** Python's `s[-limit:]`: the last `limit`; everything for zero; all but the first for a negative one. */
  function Last<T>(s: seq<T>, limit: int): seq<T> {
    if limit == 0 then s
    else if limit > 0 then (if limit >= |s| then s else s[|s| - limit..])
    else if 0 - limit >= |s| then [] else s[0 - limit..]
  }

  function Page(stored: seq<Message>, limit: int, before: Option<int>): seq<Message> {
    Last(Older(stored, before), limit)
  }

  predicate HasMore(page: seq<Message>) {
    page != [] && page[0].sequence > 0
  }

  /** The page size a request is given. */
  function Clamp(limit: int): (size: int)
    ensures 1 <= size <= MAX_PAGE
  {
    if limit > MAX_PAGE then MAX_PAGE else if limit < 1 then 1 else limit
  }

  /** Development storage: a conversation and a list of messages for each id. */
  class InMemoryConversationStore {
    var conversations: map<nat, Conversation>
    var messages: map<nat, seq<Message>>
    const size: Payload -> nat

    ghost function Contents(): Store
      reads this
    {
      Store(conversations, messages)
    }

    ghost predicate Valid()
      reads this
    {
      AllTranscripts(Contents())
    }

    constructor (size: Payload -> nat)
      ensures Valid() && Contents() == Store(map[], map[]) && this.size == size
    {
      conversations, messages := map[], map[];
      this.size := size;
    }

    method Create(c: Conversation)
      requires Valid()
      modifies this
      ensures Valid() && Contents() == Created(old(Contents()), c)
    {
      conversations := conversations[c.id := c];
      if c.id !in messages {
        messages := messages[c.id := []];
      } else {
        assert messages[c.id := messages[c.id]] == messages;
      }
      assert Contents() == Created(old(Contents()), c);
      StepKeepsTranscripts(size, old(Contents()), Event.Create(c));
    }

    /** There is such a conversation, and it is this caller's. */
    predicate OwnedBy(id: nat, subject: string)
      reads this
    {
      id in conversations && conversations[id].owner == subject
    }

    method Get(id: nat, subject: string) returns (r: Option<Conversation>)
      ensures r == Found(Contents(), id, subject)
      ensures r.Some? <==> OwnedBy(id, subject)
      ensures r.Some? ==>
        && r.value.messageCount == |TranscriptOf(Contents(), id)|
        && r.value.(messageCount := conversations[id].messageCount) == conversations[id]
    {
      if id !in conversations || conversations[id].owner != subject {
        return None;
      }
      var count := if id in messages then |messages[id]| else 0;
      return Some(conversations[id].(messageCount := count));
    }

    method Messages(id: nat, limit: int, before: Option<int>) returns (page: seq<Message>)
      ensures page == Page(TranscriptOf(Contents(), id), limit, before)
    {
      var stored := if id in messages then messages[id] else [];
      return Last(Older(stored, before), limit);
    }

    method AppendTurn(c: Conversation, turn: Turn, now: nat) returns (asked: Message, answered: Message)
      requires Valid()
      modifies this
      ensures Valid() && Contents() == Appended(size, old(Contents()), c, turn, now)
      ensures var s := if c.id in old(messages) then old(messages)[c.id] else [];
        && messages == old(messages)[c.id := s + [asked, answered]]
        && asked.sequence == (if s == [] then 0 else s[|s| - 1].sequence + 1) && answered.sequence == asked.sequence + 1
      ensures asked.role == User && asked.content == turn.question && asked.payload == map[]
      ensures answered.role == Assistant && answered.content == turn.answer
      ensures answered.payload == Bounded(size, turn.payload)
      ensures asked.conversation == answered.conversation == c.id && asked.request == answered.request == turn.request
      ensures conversations == old(conversations)[c.id := c.(updated := now)]
    {
      hide Bounded, AllTranscripts, IsTranscript, TurnMessages, Start, TranscriptOf, Appended;
      ghost var before := Contents();
      var stored := if c.id in messages then messages[c.id] else [];
      var start := if stored == [] then 0 else stored[|stored| - 1].sequence + 1;
      asked := Message(c.id, User, start, turn.question, map[], turn.request);
      var payload := BoundedPayload(size, turn.payload);
      answered := Message(c.id, Assistant, start + 1, turn.answer, payload, turn.request);
      AppendedIs(size, before, c, turn, now, start, asked, answered);
      messages := messages[c.id := stored + [asked, answered]];
      conversations := conversations[c.id := c.(updated := now)];
      assert Contents() == Appended(size, before, c, turn, now);
      StepKeepsTranscripts(size, before, Event.Append(c, turn, now));
      hide *;
    }

    method Rename(id: nat, subject: string, title: string, now: nat) returns (r: Option<Conversation>)
      requires Valid()
      modifies this`conversations
      ensures Valid() && Contents() == Renamed(old(Contents()), id, subject, title, now)
      ensures r.Some? <==> old(OwnedBy(id, subject))
      ensures r.None? ==> conversations == old(conversations)
      ensures r.Some? ==>
        && conversations == old(conversations)[id := r.value]
        && r.value.title == title && r.value.updated == now && r.value.owner == subject
        && r.value.id == old(conversations)[id].id && r.value.archived == old(conversations)[id].archived
    {
      var found := Get(id, subject);
      if found.None? {
        return None;
      }
      var renamed := found.value.(title := title, updated := now);
      conversations := conversations[id := renamed];
      SameTranscripts(old(Contents()), Contents());
      return Some(renamed);
    }

    method Archive(id: nat, subject: string) returns (done: bool)
      requires Valid()
      modifies this`conversations
      ensures Valid() && Contents() == Archived(old(Contents()), id, subject)
      ensures done <==> old(OwnedBy(id, subject))
      ensures !done ==> conversations == old(conversations)
      ensures done ==>
        && conversations == old(conversations)[id := conversations[id]] && conversations[id].archived
        && conversations[id].title == old(conversations)[id].title && conversations[id].owner == subject
    {
      var found := Get(id, subject);
      if found.None? {
        return false;
      }
      conversations := conversations[id := found.value.(archived := true)];
      SameTranscripts(old(Contents()), Contents());
      return true;
    }

    /**
     * One page as a reader is given it: nothing at all to anyone but the owner, at most a page of
     * consecutive messages ending just before `before`, and `hasMore` exactly when some message is
     * older than the first one shown.
     */
    method ReadConversation(id: nat, subject: string, limit: int, before: Option<int>)
      returns (r: Option<(seq<Message>, bool)>)
      requires Valid()
      ensures r.Some? <==> OwnedBy(id, subject)
      ensures r.Some? ==>
        && IsWindow(TranscriptOf(Contents(), id), r.value.0, Clamp(limit), before)
        && (r.value.1 <==> HasOlder(TranscriptOf(Contents(), id), r.value.0))
    {
      var found := Get(id, subject);
      if found.None? {
        return None;
      }
      var page := Messages(id, Clamp(limit), before);
      PageIsWindow(id, TranscriptOf(Contents(), id), Clamp(limit), before);
      HasMoreExactly(id, TranscriptOf(Contents(), id), Clamp(limit), before);
      hide *;
      return Some((page, HasMore(page)));
    }
  }

  // ---------------------------------------------------------------------------------------------
  // What a transcript keeps over every run

  /** Numbered from zero without gaps, question and answer in turn, all of this conversation. */
  ghost predicate IsTranscript(id: nat, s: seq<Message>) {
    && |s| % 2 == 0
    && (forall i :: 0 <= i < |s| ==>
          s[i].conversation == id && s[i].sequence == i && s[i].role == if i % 2 == 0 then User else Assistant)
    && (forall i :: 0 <= i < |s| && s[i].role.User? ==> s[i + 1].request == s[i].request)
  }

  ghost predicate AllTranscripts(store: Store) {
    forall id :: IsTranscript(id, TranscriptOf(store, id))
  }

  lemma {:induction false} SameTranscripts(a: Store, b: Store)
    requires AllTranscripts(a) && a.transcripts == b.transcripts
    ensures AllTranscripts(b)
  {
    hide IsTranscript;
    assert forall id :: TranscriptOf(b, id) == TranscriptOf(a, id);
  }

  datatype Event =
    | Create(c: Conversation)
    | Append(c: Conversation, turn: Turn, now: nat)
    | Rename(id: nat, subject: string, title: string, now: nat)
    | Archive(id: nat, subject: string)

  function Step(size: Payload -> nat, store: Store, e: Event): Store {
    match e
    case Create(c) => Created(store, c)
    case Append(c, turn, now) => Appended(size, store, c, turn, now)
    case Rename(id, subject, title, now) => Renamed(store, id, subject, title, now)
    case Archive(id, subject) => Archived(store, id, subject)
  }

  function Run(size: Payload -> nat, store: Store, events: seq<Event>): Store
    decreases |events|
  {
    if events == [] then store else Run(size, Step(size, store, events[0]), events[1..])
  }

  lemma {:induction false} TurnKeepsTranscript(size: Payload -> nat, id: nat, s: seq<Message>, turn: Turn)
    requires IsTranscript(id, s)
    ensures IsTranscript(id, s + TurnMessages(size, id, Start(s), turn))
  {
    hide Bounded;
    assert Start(s) == |s|;
  }

  lemma {:induction false} StepTranscript(size: Payload -> nat, store: Store, e: Event, id: nat)
    ensures var s := TranscriptOf(store, id);
      TranscriptOf(Step(size, store, e), id) ==
      if e.Append? && e.c.id == id then s + TurnMessages(size, id, Start(s), e.turn) else s
  {
    hide TurnMessages, Start;
  }

  lemma {:induction false} StepKeepsTranscript(size: Payload -> nat, store: Store, e: Event, id: nat)
    requires IsTranscript(id, TranscriptOf(store, id))
    ensures IsTranscript(id, TranscriptOf(Step(size, store, e), id))
  {
    StepTranscript(size, store, e, id);
    if e.Append? && e.c.id == id {
      TurnKeepsTranscript(size, id, TranscriptOf(store, id), e.turn);
    }
    hide *;
  }

  lemma {:induction false} StepKeepsTranscripts(size: Payload -> nat, store: Store, e: Event)
    requires AllTranscripts(store)
    ensures AllTranscripts(Step(size, store, e))
    ensures e.Create? ==> Step(size, store, e) == Created(store, e.c)
    ensures e.Append? ==> Step(size, store, e) == Appended(size, store, e.c, e.turn, e.now)
  {
    hide IsTranscript, TranscriptOf, Created, Appended;
    forall id ensures IsTranscript(id, TranscriptOf(Step(size, store, e), id)) {
      StepKeepsTranscript(size, store, e, id);
    }
  }

  /** Over any run, every transcript stays numbered 0..n-1 with questions and answers alternating. */
  lemma {:induction false} RunKeepsTranscript(size: Payload -> nat, store: Store, events: seq<Event>, id: nat)
    requires IsTranscript(id, TranscriptOf(store, id))
    ensures IsTranscript(id, TranscriptOf(Run(size, store, events), id))
    decreases |events|
  {
    hide IsTranscript, TranscriptOf, Step;
    if events != [] {
      StepKeepsTranscript(size, store, events[0], id);
      RunKeepsTranscript(size, Step(size, store, events[0]), events[1..], id);
    }
  }

  /** The turns appended to one conversation, in order. */
  function TurnsOf(events: seq<Event>, id: nat): seq<Turn> {
    if events == [] then []
    else (if events[0].Append? && events[0].c.id == id then [events[0].turn] else []) + TurnsOf(events[1..], id)
  }

  /** A transcript written out from its turns alone. */
  function Written(size: Payload -> nat, id: nat, start: int, turns: seq<Turn>): seq<Message>
    decreases |turns|
  {
    if turns == [] then [] else TurnMessages(size, id, start, turns[0]) + Written(size, id, start + 2, turns[1..])
  }

  /**
   * Nothing is lost, reordered or added: whatever else happens, a conversation's transcript is the
   * one it had followed by its own turns.
   */
  lemma {:induction false} TranscriptIsItsTurns(size: Payload -> nat, store: Store, events: seq<Event>, id: nat)
    requires IsTranscript(id, TranscriptOf(store, id))
    ensures var s := TranscriptOf(store, id);
      TranscriptOf(Run(size, store, events), id) == s + Written(size, id, |s|, TurnsOf(events, id))
    decreases |events|
  {
    hide *;
    var s := TranscriptOf(store, id);
    RunTurnsStep(size, store, events, id);
    if events == [] {
      NothingWritten(size, id, |s|);
    } else {
      var e, next := events[0], Step(size, store, events[0]);
      StepKeepsTranscript(size, store, e, id);
      StepTranscript(size, store, e, id);
      TranscriptIsItsTurns(size, next, events[1..], id);
      StartIsLength(id, s);
      if e.Append? && e.c.id == id {
        var pair, turns := TurnMessages(size, id, |s|, e.turn), TurnsOf(events[1..], id);
        WrittenStep(size, id, |s|, e.turn, turns);
        Associates(s, pair, Written(size, id, |s| + 2, turns));
      }
    }
  }

  lemma {:induction false} RunTurnsStep(size: Payload -> nat, store: Store, events: seq<Event>, id: nat)
    ensures events == [] ==> Run(size, store, events) == store && TurnsOf(events, id) == []
    ensures events != [] ==>
      && Run(size, store, events) == Run(size, Step(size, store, events[0]), events[1..])
      && var e, later := events[0], TurnsOf(events[1..], id);
         TurnsOf(events, id) == if e.Append? && e.c.id == id then [e.turn] + later else later
  {
    hide Step;
  }

  lemma {:induction false} StartIsLength(id: nat, s: seq<Message>)
    requires IsTranscript(id, s)
    ensures Start(s) == |s|
  {
  }

  lemma {:induction false} NothingWritten(size: Payload -> nat, id: nat, start: int)
    ensures Written(size, id, start, []) == []
  {
  }

  lemma {:induction false} Associates(a: seq<Message>, b: seq<Message>, c: seq<Message>)
    ensures (a + b) + c == a + (b + c)
  {
  }

  lemma {:induction false} WrittenStep(size: Payload -> nat, id: nat, start: int, turn: Turn, turns: seq<Turn>)
    ensures Written(size, id, start, [turn] + turns) == TurnMessages(size, id, start, turn) + Written(size, id, start + 2, turns)
  {
    assert ([turn] + turns)[1..] == turns;
  }

  // ---------------------------------------------------------------------------------------------
  // Reading a transcript back, page by page

  /** How many messages of a transcript are before `before`. */
  function CountBefore(s: seq<Message>, before: Option<int>): (n: nat)
    ensures n <= |s|
  {
    if before.None? || before.value > |s| then |s| else if before.value < 0 then 0 else before.value
  }

  /** The page is the last `limit` messages of those before `before`. */
  ghost predicate IsWindow(s: seq<Message>, page: seq<Message>, limit: int, before: Option<int>) {
    var n := CountBefore(s, before);
    && |page| == (if n < limit then n else limit)
    && page == s[n - |page|..n]
  }

  lemma {:induction false} OlderIsPrefix(id: nat, s: seq<Message>, k: nat, before: Option<int>)
    requires IsTranscript(id, s) && k <= |s|
    ensures Older(s[k..], before) == s[k..if CountBefore(s, before) < k then k else CountBefore(s, before)]
    decreases |s| - k
  {
    if before.None? || k == |s| {
    } else {
      OlderIsPrefix(id, s, k + 1, before);
      assert s[k..][1..] == s[k + 1..];
      assert s[k..][0].sequence == k;
    }
  }

  lemma {:induction false} PageIsWindow(id: nat, s: seq<Message>, limit: int, before: Option<int>)
    requires IsTranscript(id, s) && limit >= 1
    ensures IsWindow(s, Page(s, limit, before), limit, before)
  {
    OlderIsPrefix(id, s, 0, before);
    hide Older, IsTranscript, CountBefore;
    assert s[0..] == s;
  }

  /** Some message of the transcript is older than the first one of the page. */
  ghost predicate HasOlder(s: seq<Message>, page: seq<Message>) {
    page != [] && exists m :: m in s && m.sequence < page[0].sequence
  }

  lemma {:induction false} HasMoreExactly(id: nat, s: seq<Message>, limit: int, before: Option<int>)
    requires IsTranscript(id, s) && limit >= 1
    ensures HasMore(Page(s, limit, before)) <==> HasOlder(s, Page(s, limit, before))
  {
    var page := Page(s, limit, before);
    PageIsWindow(id, s, limit, before);
    hide Page;
    if page != [] {
      var first := CountBefore(s, before) - |page|;
      assert page[0] == s[first];
      if first > 0 {
        assert s[0] in s && s[0].sequence < page[0].sequence;
      }
    }
  }

  /** A limit below one is not a limit: it is respected only where there is nothing for it to hold back. */
  lemma {:induction false} LimitRespectedExactly(stored: seq<Message>, limit: int, before: Option<int>)
    ensures |Page(stored, limit, before)| <= (if limit < 0 then 0 else limit) <==>
      limit >= 1 || |Older(stored, before)| <= 0 - limit
  {
    hide Older;
  }

  /** Every page a client is given by following `before = first.sequence` while there is more, newest first. */
  ghost function Follow(id: nat, s: seq<Message>, limit: int, before: Option<int>): seq<seq<Message>>
    requires IsTranscript(id, s) && limit >= 1
    decreases CountBefore(s, before)
  {
    var page := Page(s, limit, before);
    PageIsWindow(id, s, limit, before);
    if HasMore(page) then
      FollowShrinks(id, s, limit, before);
      [page] + Follow(id, s, limit, Some(page[0].sequence))
    else [page]
  }

  lemma {:induction false} FollowShrinks(id: nat, s: seq<Message>, limit: int, before: Option<int>)
    requires IsTranscript(id, s) && limit >= 1 && Page(s, limit, before) != []
    ensures var page, n := Page(s, limit, before), CountBefore(s, before);
      CountBefore(s, Some(page[0].sequence)) == n - |page| == page[0].sequence
  {
    var page := Page(s, limit, before);
    PageIsWindow(id, s, limit, before);
    hide Page;
    assert page[0] == s[CountBefore(s, before) - |page|];
  }

  /** The pages laid end to end, oldest first. */
  function Reassembled(pages: seq<seq<Message>>): seq<Message> {
    if pages == [] then [] else Reassembled(pages[1..]) + pages[0]
  }

  lemma {:induction false} FollowReadsBefore(id: nat, s: seq<Message>, limit: int, before: Option<int>)
    requires IsTranscript(id, s) && limit >= 1
    ensures Reassembled(Follow(id, s, limit, before)) == s[..CountBefore(s, before)]
    ensures forall i :: 0 <= i < |Follow(id, s, limit, before)| - 1 ==> |Follow(id, s, limit, before)[i]| == limit
    decreases CountBefore(s, before)
  {
    var page, n := Page(s, limit, before), CountBefore(s, before);
    hide Page, IsTranscript, CountBefore, Older, Reassembled;
    if HasMore(page) {
      FollowShrinks(id, s, limit, before);
      FullPage(id, s, limit, before);
      FollowReadsBefore(id, s, limit, Some(page[0].sequence));
      ReassembledStep(page, Follow(id, s, limit, Some(page[0].sequence)));
    } else {
      LastPageReachesStart(id, s, limit, before);
      ReassembledOne(page);
    }
  }

  /** A page with more behind it is full, and continues what is before it. */
  lemma {:induction false} FullPage(id: nat, s: seq<Message>, limit: int, before: Option<int>)
    requires IsTranscript(id, s) && limit >= 1 && HasMore(Page(s, limit, before))
    ensures var page, n := Page(s, limit, before), CountBefore(s, before);
      && |page| == limit <= n
      && s[..n - |page|] + page == s[..n]
  {
    PageIsWindow(id, s, limit, before);
    FollowShrinks(id, s, limit, before);
    hide Page, IsTranscript, CountBefore;
  }

  lemma {:induction false} ReassembledOne(page: seq<Message>)
    ensures Reassembled([page]) == page
  {
    assert [page][1..] == [];
  }

  lemma {:induction false} ReassembledStep(page: seq<Message>, rest: seq<seq<Message>>)
    ensures Reassembled([page] + rest) == Reassembled(rest) + page
  {
    assert ([page] + rest)[1..] == rest;
  }

  lemma {:induction false} LastPageReachesStart(id: nat, s: seq<Message>, limit: int, before: Option<int>)
    requires IsTranscript(id, s) && limit >= 1 && !HasMore(Page(s, limit, before))
    ensures Page(s, limit, before) == s[..CountBefore(s, before)]
  {
    var page := Page(s, limit, before);
    PageIsWindow(id, s, limit, before);
    if page != [] {
      FollowShrinks(id, s, limit, before);
    }
  }

  /** With nobody writing, every page but the oldest is full, and the pages are the whole transcript. */
  lemma {:induction false} StillTranscriptReadsBack(id: nat, s: seq<Message>, limit: int)
    requires IsTranscript(id, s)
    ensures Reassembled(Follow(id, s, Clamp(limit), None)) == s
    ensures forall i :: 0 <= i < |Follow(id, s, Clamp(limit), None)| - 1 ==>
      |Follow(id, s, Clamp(limit), None)[i]| == Clamp(limit)
  {
    FollowReadsBefore(id, s, Clamp(limit), None);
    hide Follow, Reassembled, Clamp, IsTranscript;
  }

  // ---------------------------------------------------------------------------------------------
  // Paging while others write

  /** What the transcript is at each request of a client, only ever continued in between. */
  ghost predicate OnlyGrows(id: nat, at: nat -> seq<Message>) {
    forall k: nat :: IsTranscript(id, at(k)) && at(k) <= at(k + 1)
  }

  /** Every page a client is given from its request `k` on. */
  ghost function FollowWhileWriting(id: nat, at: nat -> seq<Message>, k: nat, limit: int, before: Option<int>):
    seq<seq<Message>>
    requires OnlyGrows(id, at) && limit >= 1
    decreases CountBefore(at(k), before)
  {
    var page := Page(at(k), limit, before);
    PageIsWindow(id, at(k), limit, before);
    if HasMore(page) then
      FollowShrinks(id, at(k), limit, before);
      assert at(k) <= at(k + 1);
      [page] + FollowWhileWriting(id, at, k + 1, limit, Some(page[0].sequence))
    else [page]
  }

  /** What is written after a page cannot be among what is before it. */
  lemma {:induction false} PageIgnoresLater(id: nat, s: seq<Message>, t: seq<Message>, limit: int, before: int)
    requires IsTranscript(id, s) && IsTranscript(id, t) && s <= t && limit >= 1 && 0 <= before <= |s|
    ensures Page(t, limit, Some(before)) == Page(s, limit, Some(before))
  {
    PageIsWindow(id, s, limit, Some(before));
    PageIsWindow(id, t, limit, Some(before));
    hide Page, IsTranscript;
  }

  lemma {:induction false} WritingChangesNoPage(id: nat, s: seq<Message>, at: nat -> seq<Message>, k: nat, limit: int, before: int)
    requires OnlyGrows(id, at) && IsTranscript(id, s) && s <= at(k) && limit >= 1 && 0 <= before <= |s|
    ensures FollowWhileWriting(id, at, k, limit, Some(before)) == Follow(id, s, limit, Some(before))
    decreases before
  {
    var page := Page(s, limit, Some(before));
    PageIgnoresLater(id, s, at(k), limit, before);
    if HasMore(page) {
      FollowShrinks(id, s, limit, Some(before));
      assert at(k) <= at(k + 1);
      FollowPageIsShorter(id, s, limit, before);
      hide Page, IsTranscript;
      WritingChangesNoPage(id, s, at, k + 1, limit, page[0].sequence);
    }
  }

  lemma {:induction false} FollowPageIsShorter(id: nat, s: seq<Message>, limit: int, before: int)
    requires IsTranscript(id, s) && limit >= 1 && 0 <= before <= |s|
    requires Page(s, limit, Some(before)) != []
    ensures 0 <= Page(s, limit, Some(before))[0].sequence < before
  {
    PageIsWindow(id, s, limit, Some(before));
    FollowShrinks(id, s, limit, Some(before));
    hide Page, IsTranscript;
  }

  lemma {:induction false} ReadsWhatWasThere(id: nat, at: nat -> seq<Message>, limit: int)
    requires OnlyGrows(id, at) && limit >= 1
    ensures FollowWhileWriting(id, at, 0, limit, None) == Follow(id, at(0), limit, None)
  {
    var page := Page(at(0), limit, None);
    if HasMore(page) {
      FollowShrinks(id, at(0), limit, None);
      assert at(0) <= at(1);
      hide Page, IsTranscript, Follow, FollowWhileWriting;
      WritingChangesNoPage(id, at(0), at, 1, limit, page[0].sequence);
    }
  }

  lemma {:induction false} RunOfMore(size: Payload -> nat, store: Store, events: seq<Event>, more: seq<Event>)
    ensures Run(size, store, events + more) == Run(size, Run(size, store, events), more)
    decreases |events|
  {
    hide Step;
    if events == [] {
      assert events + more == more;
    } else {
      assert (events + more)[1..] == events[1..] + more;
      RunOfMore(size, Step(size, store, events[0]), events[1..], more);
    }
  }

  /**
   * A client reads back page by page while anyone goes on writing: at its k-th request the events
   * `so(k)` have happened. Whatever limit it asks for, its pages end, every one but the oldest is full,
   * and together they are the transcript as it was at the first request, each message once and in order.
   */
  lemma {:induction false} PagingReadsEverything(
    size: Payload -> nat, store: Store, so: nat -> seq<Event>, id: nat, limit: int)
    requires IsTranscript(id, TranscriptOf(store, id)) && forall k: nat :: so(k) <= so(k + 1)
    ensures var at := (k: nat) => TranscriptOf(Run(size, store, so(k)), id);
      && OnlyGrows(id, at)
      && var pages := FollowWhileWriting(id, at, 0, Clamp(limit), None);
         Reassembled(pages) == at(0) && forall i :: 0 <= i < |pages| - 1 ==> |pages[i]| == Clamp(limit)
  {
    var at := (k: nat) => TranscriptOf(Run(size, store, so(k)), id);
    forall k: nat ensures IsTranscript(id, at(k)) && at(k) <= at(k + 1) {
      TranscriptGrows(size, store, so(k), so(k + 1), id);
    }
    ReadsWhatWasThere(id, at, Clamp(limit));
    StillTranscriptReadsBack(id, at(0), limit);
    hide FollowWhileWriting, Follow, Reassembled, Clamp, IsTranscript, TranscriptOf, Run;
  }

  lemma {:induction false} TranscriptGrows(
    size: Payload -> nat, store: Store, before: seq<Event>, after: seq<Event>, id: nat)
    requires IsTranscript(id, TranscriptOf(store, id)) && before <= after
    ensures var s := TranscriptOf(Run(size, store, before), id);
      IsTranscript(id, s) && s <= TranscriptOf(Run(size, store, after), id)
  {
    hide IsTranscript, TranscriptOf, Run;
    var more := after[|before|..];
    assert after == before + more;
    RunOfMore(size, store, before, more);
    RunKeepsTranscript(size, store, before, id);
    TranscriptIsItsTurns(size, Run(size, store, before), more, id);
  }
}
