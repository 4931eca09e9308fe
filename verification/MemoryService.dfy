/** `InMemoryMemoryService`: remembered events, and keyword search over them. */
module MemoryService {
  import opened Wrappers
  import opened Events
  import opened Orderings
  import opened Strings
  import opened Timestamps

  const MAX_SEARCH_RESULTS := 10

  predicate HasContent(e: Event) {
    e.content.Some? && e.content.value.parts != []
  }

  // ----- Remembering -----

  function Ids(events: seq<Event>): set<string> {
    set i | 0 <= i < |events| :: events[i].id
  }

  /** The ids of the events that have content. */
  function ContentIds(events: seq<Event>): set<string> {
    set i | 0 <= i < |events| && HasContent(events[i]) :: events[i].id
  }

  predicate DistinctIds(events: seq<Event>) {
    forall i, j :: 0 <= i < j < |events| ==> events[i].id != events[j].id
  }

  function AddOne(existing: seq<Event>, e: Event): seq<Event> {
    if HasContent(e) && e.id !in Ids(existing) then existing + [e] else existing
  }

  /** What a batch makes of the events remembered for a session. */
  function AddEvents(existing: seq<Event>, events: seq<Event>): seq<Event> {
    if events == [] then existing else AddOne(AddEvents(existing, events[..|events| - 1]), events[|events| - 1])
  }

  /** Ids stay distinct; what was remembered stays, in place; and every event with content is remembered by its id. */
  lemma {:induction false} AddKeeps(existing: seq<Event>, events: seq<Event>)
    ensures existing <= AddEvents(existing, events)
    ensures DistinctIds(existing) ==> DistinctIds(AddEvents(existing, events))
    ensures Ids(AddEvents(existing, events)) == Ids(existing) + ContentIds(events)
  {
    if events != [] {
      var last := |events| - 1;
      var before, e := AddEvents(existing, events[..last]), events[last];
      AddKeeps(existing, events[..last]);
      assert events == events[..last] + [e];
      IdsOfAdded(before, e);
      ContentIdsOfAdded(events[..last], e);
      assert DistinctIds(before) ==> DistinctIds(AddOne(before, e)) by {
        assert forall i :: 0 <= i < |before| ==> before[i].id in Ids(before);
      }
    }
  }

  lemma IdsOfAdded(existing: seq<Event>, e: Event)
    ensures Ids(AddOne(existing, e)) == Ids(existing) + if HasContent(e) then {e.id} else {}
  {
    var after := AddOne(existing, e);
    assert forall i :: 0 <= i < |existing| ==> after[i] == existing[i];
    if HasContent(e) && e.id !in Ids(existing) {
      assert after[|existing|].id == e.id;
      forall id ensures id in Ids(after) <==> id in Ids(existing) + {e.id} {
        if id in Ids(existing) {
          var i :| 0 <= i < |existing| && existing[i].id == id;
          assert after[i].id == id;
        }
      }
    }
  }

  lemma ContentIdsOfAdded(events: seq<Event>, e: Event)
    ensures ContentIds(events + [e]) == ContentIds(events) + if HasContent(e) then {e.id} else {}
  {
    var after := events + [e];
    assert after[|events|] == e;
    forall id ensures id in ContentIds(after) <==> id in ContentIds(events) + (if HasContent(e) then {e.id} else {}) {
      if id in ContentIds(events) {
        var i :| 0 <= i < |events| && HasContent(events[i]) && events[i].id == id;
        assert after[i] == events[i];
      }
    }
  }

  /** The `i`-th event of a batch is remembered: it has content, and its id is in neither what was there nor the batch so far. */
  ghost predicate IsNew(existing: seq<Event>, events: seq<Event>, i: int) {
    0 <= i < |events| && events[i].content.Some? && events[i].content.value.parts != [] &&
    (forall j :: 0 <= j < |existing| ==> existing[j].id != events[i].id) &&
    forall j :: 0 <= j < i && events[j].content.Some? && events[j].content.value.parts != [] ==> events[j].id != events[i].id
  }

  /** `added` are the events of the batch at the positions `at`, which ascend, and these are the new ones. */
  ghost predicate AddsNew(existing: seq<Event>, events: seq<Event>, added: seq<Event>, at: seq<int>) {
    |at| == |added| && (forall j, k :: 0 <= j < k < |at| ==> at[j] < at[k]) &&
    (forall j :: 0 <= j < |at| ==> 0 <= at[j] < |events| && added[j] == events[at[j]]) &&
    forall i :: 0 <= i < |events| ==> (i in at <==> IsNew(existing, events, i))
  }

  lemma NewAtEnd(existing: seq<Event>, init: seq<Event>, e: Event, i: int)
    ensures 0 <= i < |init| ==> (IsNew(existing, init + [e], i) <==> IsNew(existing, init, i))
    ensures IsNew(existing, init + [e], |init|) <==> HasContent(e) && e.id !in Ids(existing) + ContentIds(init)
  {
    var events := init + [e];
    assert forall j :: 0 <= j < |init| ==> events[j] == init[j];
    assert events[|init|] == e;
  }

  /** A batch adds its new events, in order, after what was there. */
  lemma {:induction false} AddEventsExact(existing: seq<Event>, events: seq<Event>) returns (added: seq<Event>, at: seq<int>)
    ensures AddEvents(existing, events) == existing + added && AddsNew(existing, events, added, at)
    decreases |events|
  {
    added, at := [], [];
    if events == [] {
      assert existing + [] == existing;
    } else {
      var init, e := events[..|events| - 1], events[|events| - 1];
      assert events == init + [e];
      added, at := AddEventsExact(existing, init);
      AddKeeps(existing, init);
      AddsOneMore(existing, init, e, added, at);
      hide Ids, ContentIds, HasContent, AddsNew;
      if HasContent(e) && e.id !in Ids(existing) + ContentIds(init) {
        assert existing + added + [e] == existing + (added + [e]);
        added, at := added + [e], at + [|init|];
      }
    }
  }

  lemma AddsOneMore(existing: seq<Event>, init: seq<Event>, e: Event, added: seq<Event>, at: seq<int>)
    requires AddsNew(existing, init, added, at)
    ensures if HasContent(e) && e.id !in Ids(existing) + ContentIds(init) then
              AddsNew(existing, init + [e], added + [e], at + [|init|])
            else AddsNew(existing, init + [e], added, at)
  {
    forall i | 0 <= i <= |init| {
      NewAtEnd(existing, init, e, i);
    }
    NewAtEnd(existing, init, e, 0);
    hide IsNew, HasContent, Ids, ContentIds;
    var at' := at + [|init|];
    assert at'[|at|] == |init| && forall i :: i in at' <==> i in at || i == |init|;
  }

  /** A batch all of whose ids are known adds nothing. */
  lemma {:induction false} KnownBatch(existing: seq<Event>, events: seq<Event>)
    requires ContentIds(events) <= Ids(existing)
    ensures AddEvents(existing, events) == existing
  {
    if events != [] {
      var last := |events| - 1;
      assert events == events[..last] + [events[last]];
      ContentIdsOfAdded(events[..last], events[last]);
      KnownBatch(existing, events[..last]);
    }
  }

  /** Repeating a batch is a no-op, also after other batches. */
  lemma RepeatedBatch(existing: seq<Event>, events: seq<Event>, others: seq<Event>)
    ensures var once := AddEvents(AddEvents(existing, events), others);
            AddEvents(once, events) == once
  {
    AddKeeps(existing, events);
    AddKeeps(AddEvents(existing, events), others);
    KnownBatch(AddEvents(AddEvents(existing, events), others), events);
  }

  /** Adds the events with content whose ids are new, one by one. */
  method Remember(existing: seq<Event>, events: seq<Event>) returns (remembered: seq<Event>)
    ensures remembered == AddEvents(existing, events)
  {
    var ids := Ids(existing);
    remembered := existing;
    var i := 0;
    assert AddEvents(existing, events[..0]) == existing;
    hide Ids;
    while i < |events|
      invariant 0 <= i <= |events|
      invariant remembered == AddEvents(existing, events[..i]) && ids == Ids(remembered)
    {
      assert events[..i + 1][..i] == events[..i];
      IdsOfAdded(remembered, events[i]);
      if HasContent(events[i]) && events[i].id !in ids {
        ids := ids + {events[i].id};
        remembered := remembered + [events[i]];
      }
      i := i + 1;
    }
    assert events[..i] == events;
  }

  // ----- Scoring -----

  /** Splitting a text into lower-case words, and lower-casing it: Unicode tables the model leaves open. */
  datatype Tokens = Tokens(words: string -> set<string>, lower: string -> string)

  predicate Contains(s: string, t: string) {
    t <= s || (s != "" && Contains(s[1..], t))
  }

  predicate IsAscii(s: string) {
    forall i :: 0 <= i < |s| ==> s[i] as int < 128
  }

  function TextOf(parts: seq<Part>): string {
    if parts == [] then ""
    else
      var rest := TextOf(parts[1..]);
      if parts[0].text.None? then rest
      else if HasText(parts[1..]) then parts[0].text.value + " " + rest
      else parts[0].text.value
  }

  predicate HasText(parts: seq<Part>) {
    exists i :: 0 <= i < |parts| && parts[i].text.Some?
  }

  /** The number of words of the query that an event's text matches; other than ASCII words also match inside words. */
  function Score(e: Event, query: set<string>, tokens: Tokens): nat {
    if !HasContent(e) then 0
    else
      var text := TextOf(e.content.value.parts);
      var words := tokens.words(text);
      if words == {} then 0
      else |set q | q in query && (q in words || (!IsAscii(q) && Contains(tokens.lower(text), q)))|
  }

  // ----- What a score counts -----

  /** The texts of the parts that have one. */
  function Texts(parts: seq<Part>): seq<string> {
    if parts == [] then [] else (if parts[0].text.Some? then [parts[0].text.value] else []) + Texts(parts[1..])
  }

  lemma {:induction false} HasTextExact(parts: seq<Part>)
    ensures HasText(parts) <==> Texts(parts) != []
  {
    if parts != [] {
      HasTextExact(parts[1..]);
      if i :| 0 <= i < |parts| && parts[i].text.Some? {
        assert i > 0 ==> parts[1..][i - 1] == parts[i];
      }
      if i :| 0 <= i < |parts[1..]| && parts[1..][i].text.Some? {
        assert parts[i + 1] == parts[1..][i];
      }
    }
  }

  lemma {:induction false} TextOfJoins(parts: seq<Part>)
    ensures TextOf(parts) == Join(Texts(parts), ' ')
  {
    if parts != [] {
      var rest := Texts(parts[1..]);
      TextOfJoins(parts[1..]);
      HasTextExact(parts[1..]);
      hide HasText;
      if parts[0].text.None? {
        assert Texts(parts) == rest;
      } else {
        assert Texts(parts) == [parts[0].text.value] + rest;
        if rest == [] {
          assert Texts(parts) == [parts[0].text.value];
        } else {
          JoinFirst(parts[0].text.value, rest, ' ');
        }
      }
    }
  }

  ghost predicate OccursAt(s: string, t: string, i: int) {
    0 <= i <= |s| && t <= s[i..]
  }

  lemma {:induction false} ContainsExact(s: string, t: string)
    ensures Contains(s, t) <==> exists i :: OccursAt(s, t, i)
  {
    assert s[0..] == s;
    if t <= s {
      assert OccursAt(s, t, 0);
    } else if s != "" {
      ContainsExact(s[1..], t);
      if i :| OccursAt(s[1..], t, i) {
        assert s[1..][i..] == s[i + 1..];
        assert OccursAt(s, t, i + 1);
      }
      if i :| OccursAt(s, t, i) && i > 0 {
        assert s[i..] == s[1..][i - 1..];
        assert OccursAt(s[1..], t, i - 1);
      }
    }
  }

  /** A word of a query matches an event's text: it is a word of it, or not all ASCII and found in its lower-case form. */
  ghost predicate WordMatches(q: string, text: string, tokens: Tokens) {
    q in tokens.words(text) ||
    ((exists i :: 0 <= i < |q| && q[i] as int >= 128) && exists i :: OccursAt(tokens.lower(text), q, i))
  }

  /** An event's score counts the words of the query that match its texts, joined by blanks, if these have any words. */
  lemma ScoreExact(e: Event, query: set<string>, tokens: Tokens) returns (matched: set<string>)
    ensures Score(e, query, tokens) == |matched|
    ensures forall q :: q in matched <==>
              q in query && e.content.Some? && e.content.value.parts != [] &&
              var text := Join(Texts(e.content.value.parts), ' ');
              tokens.words(text) != {} && WordMatches(q, text, tokens)
  {
    matched := {};
    if HasContent(e) {
      var text := TextOf(e.content.value.parts);
      TextOfJoins(e.content.value.parts);
      forall q ensures (q in tokens.words(text) || (!IsAscii(q) && Contains(tokens.lower(text), q))) <==> WordMatches(q, text, tokens) {
        ContainsExact(tokens.lower(text), q);
      }
      if tokens.words(text) != {} {
        matched := set q | q in query && (q in tokens.words(text) || (!IsAscii(q) && Contains(tokens.lower(text), q)));
      }
    }
  }

  /** A match: how many words, and what is returned of the event. */
  datatype Match = Match(score: nat, content: Content, author: string, timestamp: string)

  /** The matches among `events`, in the order in which they are met. */
  function Matches(events: seq<Event>, query: set<string>, tokens: Tokens): seq<Match> {
    if events == [] then []
    else
      var last := |events| - 1;
      var before := Matches(events[..last], query, tokens);
      var e := events[last];
      var score := Score(e, query, tokens);
      if score > 0 then before + [Match(score, e.content.value, e.author, FormatTimestamp(e.timestamp))] else before
  }

  /** `matches` are those of the events at the positions `at`, which ascend, and these are the ones that score. */
  ghost predicate AreMatches(matches: seq<Match>, events: seq<Event>, query: set<string>, tokens: Tokens, at: seq<int>) {
    |at| == |matches| && (forall j, k :: 0 <= j < k < |at| ==> at[j] < at[k]) &&
    (forall i :: 0 <= i < |events| ==> (i in at <==> Score(events[i], query, tokens) > 0)) &&
    forall j :: 0 <= j < |at| ==> 0 <= at[j] < |events| && MatchOf(matches[j], events[at[j]], query, tokens)
  }

  ghost predicate MatchOf(m: Match, e: Event, query: set<string>, tokens: Tokens) {
    m.score == Score(e, query, tokens) && e.content == Some(m.content) && m.author == e.author &&
    m.timestamp == FormatTimestamp(e.timestamp)
  }

  lemma {:induction false} MatchesExact(events: seq<Event>, query: set<string>, tokens: Tokens) returns (at: seq<int>)
    ensures AreMatches(Matches(events, query, tokens), events, query, tokens, at)
    decreases |events|
  {
    hide Score, FormatTimestamp;
    at := [];
    if events != [] {
      var init, e := events[..|events| - 1], events[|events| - 1];
      assert events == init + [e];
      at := MatchesExact(init, query, tokens);
      PositiveScore(e, query, tokens);
      OneMoreMatch(Matches(init, query, tokens), init, e, query, tokens, at);
      hide AreMatches;
      if Score(e, query, tokens) > 0 {
        at := at + [|init|];
      }
    }
  }

  lemma OneMoreMatch(matches: seq<Match>, init: seq<Event>, e: Event, query: set<string>, tokens: Tokens, at: seq<int>)
    requires AreMatches(matches, init, query, tokens, at) && (Score(e, query, tokens) > 0 ==> HasContent(e))
    ensures if Score(e, query, tokens) > 0 then
              AreMatches(matches + [Match(Score(e, query, tokens), e.content.value, e.author, FormatTimestamp(e.timestamp))],
                         init + [e], query, tokens, at + [|init|])
            else AreMatches(matches, init + [e], query, tokens, at)
  {
    hide Score, FormatTimestamp;
    var at' := at + [|init|];
    assert at'[|at|] == |init| && forall i :: i in at' <==> i in at || i == |init|;
  }

  function Concat(lists: seq<seq<Event>>): seq<Event> {
    if lists == [] then [] else Concat(lists[..|lists| - 1]) + lists[|lists| - 1]
  }

  predicate HigherFirst(a: Match, b: Match) {
    a.score >= b.score
  }

  function Best(matches: seq<Match>): seq<Match> {
    var sorted := Sort(matches, HigherFirst);
    if |sorted| <= MAX_SEARCH_RESULTS then sorted else sorted[..MAX_SEARCH_RESULTS]
  }

  function AtScore(score: nat): (keep: Match -> bool) {
    (m: Match) => m.score == score
  }

  lemma MatchOrder(score: nat)
    ensures TotalPreorder(HigherFirst) && Tied(AtScore(score), HigherFirst)
  {
  }

  lemma Splits(sorted: seq<Match>, best: seq<Match>, rest: seq<Match>)
    requires sorted == best + rest && Sorted(sorted, HigherFirst)
    ensures forall i, j :: 0 <= i < j < |best| ==> best[i].score >= best[j].score
    ensures forall m, b :: m in rest && b in best ==> m.score <= b.score
  {
    forall i, j | 0 <= i < j < |best| ensures best[i].score >= best[j].score {
      assert HigherFirst(sorted[i], sorted[j]);
    }
    forall m, b | m in rest && b in best ensures m.score <= b.score {
      var i :| 0 <= i < |rest| && rest[i] == m;
      var j :| 0 <= j < |best| && best[j] == b;
      assert HigherFirst(sorted[j], sorted[|best| + i]);
    }
  }

  lemma BestSplits(matches: seq<Match>) returns (rest: seq<Match>)
    ensures Sort(matches, HigherFirst) == Best(matches) + rest
    ensures var n := |Sort(matches, HigherFirst)|;
            |Best(matches)| == if n <= MAX_SEARCH_RESULTS then n else MAX_SEARCH_RESULTS
  {
    hide Sort, HigherFirst;
    rest := Sort(matches, HigherFirst)[|Best(matches)|..];
  }

  lemma Leftover(matches: seq<Match>, best: seq<Match>, rest: seq<Match>)
    requires multiset(best + rest) == multiset(matches)
    ensures multiset(best) <= multiset(matches)
    ensures forall m :: m in multiset(matches) - multiset(best) <==> m in rest
  {
    assert multiset(matches) == multiset(best) + multiset(rest);
    assert multiset(matches) - multiset(best) == multiset(rest);
  }

  /**
   * The results are the ten best matches, or all of them if there are fewer: best first, no match left
   * out is better than one returned, and matches of one score come in the order in which they were met.
   */
  lemma BestIsBest(matches: seq<Match>, score: nat)
    ensures var best := Best(matches);
            |best| == (if |matches| <= MAX_SEARCH_RESULTS then |matches| else MAX_SEARCH_RESULTS) &&
            (forall i, j :: 0 <= i < j < |best| ==> best[i].score >= best[j].score) &&
            multiset(best) <= multiset(matches) &&
            (forall m, b :: m in multiset(matches) - multiset(best) && b in best ==> m.score <= b.score) &&
            Filter(best, AtScore(score)) <= Filter(matches, AtScore(score))
  {
    hide *;
    var keep := AtScore(score);
    var rest := BestSplits(matches);
    MatchOrder(score);
    SortSorts(matches, HigherFirst);
    SortStable(matches, HigherFirst, keep);
    FilterConcat(Best(matches), rest, keep);
    Splits(Sort(matches, HigherFirst), Best(matches), rest);
    Leftover(matches, Best(matches), rest);
  }

  lemma TenAtMost(matches: seq<Match>)
    ensures |Best(matches)| == if |matches| < 10 then |matches| else 10
  {
    BestIsBest(matches, 0);
  }

  lemma OneMoreMet(met: seq<Event>, e: Event, query: set<string>, tokens: Tokens)
    ensures Score(e, query, tokens) > 0 ==> HasContent(e)
    ensures Matches(met + [e], query, tokens) ==
            Matches(met, query, tokens) +
            if Score(e, query, tokens) > 0 then
              [Match(Score(e, query, tokens), e.content.value, e.author, FormatTimestamp(e.timestamp))]
            else []
  {
    PositiveScore(e, query, tokens);
    hide Score, FormatTimestamp;
    assert (met + [e])[..|met|] == met;
  }

  /** Scores the events of one session after those met before. */
  method ScoreSession(ghost before: seq<Event>, scored: seq<Match>, events: seq<Event>, query: set<string>, tokens: Tokens)
    returns (more: seq<Match>)
    requires scored == Matches(before, query, tokens)
    ensures more == Matches(before + events, query, tokens)
  {
    hide Score, FormatTimestamp, Matches;
    more := scored;
    var j := 0;
    assert before + events[..0] == before;
    while j < |events|
      invariant 0 <= j <= |events| && more == Matches(before + events[..j], query, tokens)
    {
      var e := events[j];
      var score := Score(e, query, tokens);
      OneMoreMet(before + events[..j], e, query, tokens);
      assert before + events[..j + 1] == before + events[..j] + [e];
      if score > 0 {
        more := more + [Match(score, e.content.value, e.author, FormatTimestamp(e.timestamp))];
      }
      j := j + 1;
    }
    assert events[..j] == events;
  }

  lemma PositiveScore(e: Event, query: set<string>, tokens: Tokens)
    ensures Score(e, query, tokens) > 0 ==> HasContent(e)
  {
  }

  /** Scores every event of the snapshot, session by session, and keeps the best. */
  method SearchSnapshot(lists: seq<seq<Event>>, query: set<string>, tokens: Tokens) returns (results: seq<Match>)
    ensures results == Best(Matches(Concat(lists), query, tokens))
  {
    hide Score, Matches;
    var scored: seq<Match> := [];
    var i := 0;
    NothingMet(query, tokens);
    assert Concat(lists[..0]) == [];
    while i < |lists|
      invariant 0 <= i <= |lists| && scored == Matches(Concat(lists[..i]), query, tokens)
    {
      assert lists[..i + 1][..i] == lists[..i];
      scored := ScoreSession(Concat(lists[..i]), scored, lists[i], query, tokens);
      i := i + 1;
    }
    assert lists[..i] == lists;
    var sorted := Sort(scored, HigherFirst);
    results := if |sorted| <= MAX_SEARCH_RESULTS then sorted else sorted[..MAX_SEARCH_RESULTS];
  }

  lemma NothingMet(query: set<string>, tokens: Tokens)
    ensures Matches([], query, tokens) == []
  {
  }

  // ----- The service -----

  type Sessions = map<string, seq<Event>>

  class InMemoryMemoryService {
    /** The remembered events of each user's sessions; a user is an app and a user id. */
    var sessionEvents: map<(string, string), Sessions>

    constructor ()
      ensures sessionEvents == map[]
    {
      sessionEvents := map[];
    }

    function SessionsOf(app: string, user: string): Sessions
      reads this
    {
      if (app, user) in sessionEvents then sessionEvents[(app, user)] else map[]
    }

    /** `add_session_to_memory`: replaces what was remembered of the session. */
    method AddSessionToMemory(app: string, user: string, session: string, events: seq<Event>)
      modifies this
      ensures sessionEvents ==
              old(sessionEvents)[(app, user) := old(SessionsOf(app, user))[session := Filter(events, HasContent)]]
    {
      var retained := Filter(events, HasContent);
      sessionEvents := sessionEvents[(app, user) := SessionsOf(app, user)[session := retained]];
    }

    /** `add_events_to_memory`. */
    method AddEventsToMemory(app: string, user: string, session: string, events: seq<Event>)
      modifies this
      ensures var before := old(SessionsOf(app, user));
              var existing := if session in before then before[session] else [];
              sessionEvents == old(sessionEvents)[(app, user) := before[session := AddEvents(existing, events)]]
    {
      var sessions := SessionsOf(app, user);
      var existing := if session in sessions then sessions[session] else [];
      var remembered := Remember(existing, events);
      sessionEvents := sessionEvents[(app, user) := sessions[session := remembered]];
    }

    /** `search_memory`: the sessions are met in no particular order. */
    method SearchMemory(app: string, user: string, query: string, tokens: Tokens)
      returns (results: seq<Match>)
      ensures exists order :: BestOf(results, order, SessionsOf(app, user), tokens.words(query), tokens)
    {
      hide Best, Matches, Concat;
      var sessions := SessionsOf(app, user);
      var lists: seq<seq<Event>> := [];
      ghost var order: seq<string> := [];
      var todo := sessions.Keys;
      while todo != {}
        invariant todo <= sessions.Keys && NoRepeats(order)
        invariant forall id :: id in order <==> id in sessions && id !in todo
        invariant lists == InTurn(sessions, order)
        decreases |todo|
      {
        var id :| id in todo;
        todo := todo - {id};
        assert (order + [id])[..|order|] == order;
        order := order + [id];
        lists := lists + [sessions[id]];
      }
      results := SearchSnapshot(lists, tokens.words(query), tokens);
      assert BestOf(results, order, SessionsOf(app, user), tokens.words(query), tokens);
    }
  }

  /** `results` are the best matches when the sessions, each once, are met in this order. */
  ghost predicate BestOf(results: seq<Match>, order: seq<string>, sessions: Sessions, query: set<string>, tokens: Tokens) {
    NoRepeats(order) && (forall id :: id in order <==> id in sessions) &&
    results == Best(Matches(Concat(InTurn(sessions, order)), query, tokens))
  }

  /** The remembered events of the sessions, in the given order. */
  ghost function InTurn(sessions: Sessions, order: seq<string>): seq<seq<Event>>
    requires forall id :: id in order ==> id in sessions
  {
    if order == [] then [] else InTurn(sessions, order[..|order| - 1]) + [sessions[order[|order| - 1]]]
  }

  /** Session after session is met, each with all of its events in order. */
  lemma {:induction false} MetInTurn(sessions: Sessions, order: seq<string>, k: nat)
    requires (forall id :: id in order ==> id in sessions) && k < |order|
    ensures Concat(InTurn(sessions, order[..k])) + sessions[order[k]] <= Concat(InTurn(sessions, order))
    ensures k == |order| - 1 ==>
              Concat(InTurn(sessions, order)) == Concat(InTurn(sessions, order[..k])) + sessions[order[k]]
    decreases |order|
  {
    var last := |order| - 1;
    assert InTurn(sessions, order)[..last] == InTurn(sessions, order[..last]) by {
      InTurnLength(sessions, order[..last]);
    }
    InTurnLength(sessions, order);
    if k < last {
      MetInTurn(sessions, order[..last], k);
      assert order[..last][..k] == order[..k];
    }
  }

  lemma {:induction false} InTurnLength(sessions: Sessions, order: seq<string>)
    requires forall id :: id in order ==> id in sessions
    ensures |InTurn(sessions, order)| == |order|
    decreases |order|
  {
    if order != [] {
      InTurnLength(sessions, order[..|order| - 1]);
    }
  }
}
