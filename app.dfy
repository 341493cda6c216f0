/**
 * The workbench state held by the top-level component (src/App.tsx): the
 * ordered request slots, the per-position `responses` map, the comparison
 * history and the saved requests, with the handlers that overwrite them.
 * Ids and timestamps that the source draws from `crypto.randomUUID()` and
 * `new Date()` are parameters.
 */
module App {
  import opened Wrappers
  import opened Types
  import opened Dispatch
  import Text

  /** The slot `addRequest` appends and the workbench starts with. */
  function BlankRequest(): RequestMethod
  {
    RequestMethod(GET, "", map[], Some(""))
  }

  /** `map((req, i) => i === index ? request : req)`: only position `index` changes. */
  function Replaced<T>(slots: seq<T>, index: int, x: T): (r: seq<T>)
    ensures |r| == |slots|
    ensures 0 <= index < |slots| ==> r[index] == x
    ensures forall i | 0 <= i < |slots| && i != index :: r[i] == slots[i]
  {
    if 0 <= index < |slots| then slots[index := x] else slots
  }

  /** `filter((_, i) => i !== index)`: drops exactly position `index`, if there is one. */
  function RemovedAt<T>(slots: seq<T>, index: int): (r: seq<T>)
    ensures !(0 <= index < |slots|) ==> r == slots
    ensures 0 <= index < |slots| ==> |r| == |slots| - 1
    ensures 0 <= index < |slots| ==> multiset(r) + multiset{slots[index]} == multiset(slots)
    ensures forall j | 0 <= j < |r| :: r[j] == slots[if 0 <= index <= j then j + 1 else j]
  {
    if 0 <= index < |slots| then
      assert slots == slots[..index] + [slots[index]] + slots[index + 1..];
      slots[..index] + slots[index + 1..]
    else
      slots
  }

  /**
   * After `removeRequest(index)` the slot that moves into position `index`
   * shows no response (its own entry is still keyed at `index + 1`), and
   * the entry keyed at the old last position is left beyond the end.
   */
  lemma RemoveMisassociates<T>(slots: seq<T>, responses: map<int, ResponseEntry>, index: int)
    requires 0 <= index < |slots| - 1
    requires index + 1 in responses
    ensures var slots', responses' := RemovedAt(slots, index), responses - {index};
      && |slots'| == |slots| - 1
      && slots'[index] == slots[index + 1]
      && index !in responses'
      && index + 1 in responses' && responses'[index + 1] == responses[index + 1]
      && (|slots| - 1 in responses ==> |slots| - 1 in responses' && |slots| - 1 >= |slots'|)
  {
  }

  /** Slots [A, B, C] with responses at 0, 1, 2; removing 1 leaves [A, C] with keys 0 and 2. */
  lemma RemoveMiddleOfThree<T>(a: T, b: T, c: T, ra: ResponseEntry, rb: ResponseEntry, rc: ResponseEntry)
    ensures var slots', responses' := RemovedAt([a, b, c], 1), map[0 := ra, 1 := rb, 2 := rc] - {1};
      && slots' == [a, c]
      && responses'.Keys == {0, 2}
      && responses'[0] == ra && responses'[2] == rc
  {
    var responses' := map[0 := ra, 1 := rb, 2 := rc] - {1};
    assert 0 in responses' && 2 in responses';
    assert responses'.Keys == {0, 2};
  }

  /** The name `handleSave` gives a saved request: `"<method> <url>"`. */
  function SavedName(request: RequestMethod): string
  {
    MethodName(request.verb) + " " + request.url
  }

  predicate UniqueIds(saved: seq<SavedRequest>)
  {
    forall i, j | 0 <= i < j < |saved| :: saved[i].id != saved[j].id
  }

  /**
   * The saved list after `handleUpdateDocumentation(doc)` with `selected`
   * selected: the record with the selected id becomes the selected record
   * with `doc` attached; every other record is unchanged.
   */
  function Attached(saved: seq<SavedRequest>, selected: SavedRequest, doc: Documentation): (r: seq<SavedRequest>)
    ensures |r| == |saved|
    ensures forall i | 0 <= i < |saved| && saved[i].id != selected.id :: r[i] == saved[i]
    ensures forall i | 0 <= i < |saved| && saved[i].id == selected.id ::
      && r[i].documentation == Some(doc)
      && r[i].id == selected.id
      && r[i].name == selected.name
      && r[i].request == selected.request
      && r[i].createdAt == selected.createdAt
  {
    seq(|saved|, i requires 0 <= i < |saved| =>
      if saved[i].id == selected.id then selected.(documentation := Some(doc)) else saved[i])
  }

  /** Attaching the same documentation again, with the updated record selected, changes nothing. */
  lemma {:induction false} AttachedIdempotent(saved: seq<SavedRequest>, selected: SavedRequest, doc: Documentation)
    ensures var once := Attached(saved, selected, doc);
      Attached(once, selected.(documentation := Some(doc)), doc) == once
  {
    var once := Attached(saved, selected, doc);
    var twice := Attached(once, selected.(documentation := Some(doc)), doc);
    forall i | 0 <= i < |saved|
      ensures twice[i] == once[i]
    {
      if saved[i].id == selected.id {
        assert once[i] == selected.(documentation := Some(doc));
      }
    }
  }

  /** When the selected record is in the list, its updated version is in the updated list. */
  lemma {:induction false} AttachedKeepsSelected(saved: seq<SavedRequest>, selected: SavedRequest, doc: Documentation)
    requires selected in saved
    ensures selected.(documentation := Some(doc)) in Attached(saved, selected, doc)
  {
    var i :| 0 <= i < |saved| && saved[i] == selected;
    assert Attached(saved, selected, doc)[i] == selected.(documentation := Some(doc));
  }

  /** The name `handleCompare` gives the comparison that makes the history `count` long. */
  function ComparisonName(count: nat): string
  {
    "Comparison " + Text.NatToString(count)
  }

  /** Every entry of a comparison holds exactly one of response and error. */
  predicate AllWellFormed(entries: seq<ComparisonEntry>)
  {
    forall k | 0 <= k < |entries| :: WellFormedEntry(entries[k])
  }

  /**
   * The history `handleCompare` builds, newest first: the comparison at
   * position i was the (|history| - i)-th one made, is named after that
   * count, and its entries are well formed.
   */
  ghost predicate WellKept(history: seq<ComparisonResult>)
  {
    forall i | 0 <= i < |history| ::
      history[i].name == ComparisonName(|history| - i) && AllWellFormed(history[i].requests)
  }

  /** No two comparisons in a kept history share a name. */
  lemma {:induction false} ComparisonNamesDistinct(history: seq<ComparisonResult>)
    requires WellKept(history)
    ensures forall i, j | 0 <= i < j < |history| :: history[i].name != history[j].name
  {
    forall i, j | 0 <= i < j < |history|
      ensures history[i].name != history[j].name
    {
      var a, b := |history| - i, |history| - j;
      var prefix := "Comparison ";
      assert ComparisonName(a)[|prefix|..] == Text.NatToString(a);
      assert ComparisonName(b)[|prefix|..] == Text.NatToString(b);
      Text.NatToStringInjective(a, b);
    }
  }

  class Workbench {
    var activeRequests: seq<RequestMethod>
    var responses: map<int, ResponseEntry>
    var savedRequests: seq<SavedRequest>
    var selectedRequest: Option<SavedRequest>
    var comparisons: seq<ComparisonResult>

    ghost predicate Valid()
      reads this
    {
      && (forall k | k in responses :: responses[k].IsPending() || responses[k].IsSettled())
      && WellKept(comparisons)
      && UniqueIds(savedRequests)
      && (selectedRequest.Some? ==> selectedRequest.value in savedRequests)
    }

    constructor ()
      ensures Valid()
      ensures activeRequests == [BlankRequest()]
      ensures responses == map[] && savedRequests == [] && selectedRequest == None && comparisons == []
    {
      activeRequests := [BlankRequest()];
      responses := map[];
      savedRequests := [];
      selectedRequest := None;
      comparisons := [];
    }

    method AddRequest()
      requires Valid()
      modifies this`activeRequests
      ensures Valid()
      ensures activeRequests == old(activeRequests) + [BlankRequest()]
    {
      activeRequests := activeRequests + [BlankRequest()];
    }

    method UpdateRequest(index: int, request: RequestMethod)
      requires Valid()
      modifies this`activeRequests
      ensures Valid()
      ensures activeRequests == Replaced(old(activeRequests), index, request)
    {
      activeRequests := Replaced(activeRequests, index, request);
    }

    /** Drops the slot by position but deletes only the map key `index`; later keys are not shifted. */
    method RemoveRequest(index: int)
      requires Valid()
      modifies this`activeRequests, this`responses
      ensures Valid()
      ensures activeRequests == RemovedAt(old(activeRequests), index)
      ensures responses == old(responses) - {index}
    {
      activeRequests := RemovedAt(activeRequests, index);
      responses := responses - {index};
    }

    /**
     * Marks the slot pending, then either rejects before the network (empty
     * URL, unparsable JSON body) or makes the call; the settled entry holds
     * exactly one of response and error.
     */
    method HandleSend(request: RequestMethod, index: int, parse: JsonParser, reply: Reply)
      returns (result: SendResult, call: Option<FetchCall>)
      requires Valid()
      modifies this`responses
      ensures Valid()
      ensures result == SendOutcome(request, parse, reply)
      ensures call == Fetched(request, parse)
      ensures responses == old(responses)[index := SlotEntry(request, parse, reply)]
    {
      MarkPending(index);
      ghost var marked := responses;
      var thrown;
      thrown, call := Attempt(request, parse, reply);
      if thrown.Some? {
        result := SendFailed(Classify(thrown.value));
      } else {
        result := Sent(reply.data);
      }
      assert result == SendOutcome(request, parse, reply);
      SetResponse(index, Settled(result));
      assert marked[index := Settled(result)] == old(responses)[index := Settled(result)];
    }

    /** The first write of `handleSend`: the slot's entry becomes `{ response: null, error: null }`. */
    method MarkPending(index: int)
      requires Valid()
      modifies this`responses
      ensures Valid()
      ensures responses == old(responses)[index := Pending]
    {
      SetResponse(index, Pending);
    }

    /** `setResponses(prev => new Map(prev).set(index, entry))`. */
    method SetResponse(index: int, entry: ResponseEntry)
      requires Valid()
      requires entry.IsPending() || entry.IsSettled()
      modifies this`responses
      ensures Valid()
      ensures responses == old(responses)[index := entry]
    {
      responses := responses[index := entry];
    }

    /**
     * Sends every slot with its index, in slot order, then prepends a
     * comparison with one entry per slot, named after the new history length.
     */
    method HandleCompare(parse: JsonParser, replies: seq<Reply>, id: string, now: int)
      requires Valid()
      requires |replies| == |activeRequests|
      modifies this`responses, this`comparisons
      ensures Valid()
      ensures var outcomes := Outcomes(activeRequests, parse, replies);
        && comparisons ==
          [ComparisonResult(id, EntriesOf(activeRequests, outcomes), now, ComparisonName(|old(comparisons)| + 1))]
          + old(comparisons)
        && responses == Recorded(old(responses), outcomes)
    {
      var results := SendAll(parse, replies);
      PushComparison(id, results, now);
    }

    /**
     * `Promise.all(activeRequests.map((request, index) => ...))`, run one
     * slot after the other: each slot is sent under its own index and its
     * result becomes one entry.
     */
    method SendAll(parse: JsonParser, replies: seq<Reply>) returns (results: seq<ComparisonEntry>)
      requires Valid()
      requires |replies| == |activeRequests|
      modifies this`responses
      ensures Valid() && AllWellFormed(results)
      ensures var outcomes := Outcomes(activeRequests, parse, replies);
        && results == EntriesOf(activeRequests, outcomes)
        && responses == Recorded(old(responses), outcomes)
    {
      results := [];
      ghost var outcomes: seq<SendResult> := [];
      NothingSent(parse, replies);
      for i := 0 to |activeRequests|
        invariant SentThrough(i, parse, replies, results, outcomes, old(responses))
      {
        results, outcomes := SendSlot(i, parse, replies, results, outcomes, old(responses));
      }
      EverythingSent(parse, replies, results, outcomes, old(responses));
    }

    /**
     * The state of `compareRequests` after slots `0 .. i - 1` have been sent:
     * `results` holds their entries and `responses` records their outcomes
     * over the map `before` the comparison started.
     */
    ghost predicate SentThrough(i: nat, parse: JsonParser, replies: seq<Reply>, results: seq<ComparisonEntry>,
                                outcomes: seq<SendResult>, before: map<int, ResponseEntry>)
      reads this
    {
      && Valid()
      && |replies| == |activeRequests| && i <= |activeRequests|
      && outcomes == Outcomes(activeRequests[..i], parse, replies[..i])
      && results == EntriesOf(activeRequests[..i], outcomes)
      && responses == Recorded(before, outcomes)
    }

    lemma NothingSent(parse: JsonParser, replies: seq<Reply>)
      requires Valid() && |replies| == |activeRequests|
      ensures SentThrough(0, parse, replies, [], [], responses)
    {
    }

    lemma EverythingSent(parse: JsonParser, replies: seq<Reply>, results: seq<ComparisonEntry>,
                         outcomes: seq<SendResult>, before: map<int, ResponseEntry>)
      requires SentThrough(|activeRequests|, parse, replies, results, outcomes, before)
      ensures Valid()
      ensures outcomes == Outcomes(activeRequests, parse, replies)
      ensures results == EntriesOf(activeRequests, outcomes)
      ensures responses == Recorded(before, outcomes)
      ensures AllWellFormed(results)
    {
      assert activeRequests[..|activeRequests|] == activeRequests;
      assert replies[..|replies|] == replies;
      EntriesOfCases(activeRequests, outcomes);
    }

    /** One turn of the loop in `compareRequests`: `await handleSend(request, i)` and collect its entry. */
    method SendSlot(i: nat, parse: JsonParser, replies: seq<Reply>, results: seq<ComparisonEntry>,
                    ghost outcomes: seq<SendResult>, ghost before: map<int, ResponseEntry>)
      returns (results': seq<ComparisonEntry>, ghost outcomes': seq<SendResult>)
      requires SentThrough(i, parse, replies, results, outcomes, before) && i < |activeRequests|
      modifies this`responses
      ensures SentThrough(i + 1, parse, replies, results', outcomes', before)
    {
      var result, _ := HandleSend(activeRequests[i], i, parse, replies[i]);
      EntriesOfStep(activeRequests, outcomes, i, result);
      results' := results + [CompareEntry(activeRequests[i], result)];
      OutcomesStep(activeRequests, parse, replies, i);
      assert (outcomes + [result])[..i] == outcomes;
      outcomes' := outcomes + [result];
    }

    /** `setComparisons([comparison, ...comparisons])`, the comparison named after the new history length. */
    method PushComparison(id: string, results: seq<ComparisonEntry>, now: int)
      requires Valid()
      requires AllWellFormed(results)
      modifies this`comparisons
      ensures Valid()
      ensures comparisons == [ComparisonResult(id, results, now, ComparisonName(|old(comparisons)| + 1))] + old(comparisons)
    {
      var comparison := ComparisonResult(id, results, now, ComparisonName(|comparisons| + 1));
      forall i | 1 <= i < |comparisons| + 1
        ensures ([comparison] + comparisons)[i] == comparisons[i - 1]
      {
      }
      comparisons := [comparison] + comparisons;
    }

    /** Prepends a snapshot named `"<method> <url>"` under a fresh id and selects it. */
    method HandleSave(request: RequestMethod, id: string, now: int)
      requires Valid()
      requires forall s | s in savedRequests :: s.id != id
      modifies this`savedRequests, this`selectedRequest
      ensures Valid()
      ensures savedRequests == [SavedRequest(id, SavedName(request), request, now, None)] + old(savedRequests)
      ensures selectedRequest == Some(savedRequests[0])
    {
      var saved := SavedRequest(id, SavedName(request), request, now, None);
      savedRequests := [saved] + savedRequests;
      selectedRequest := Some(saved);
    }

    /** Replaces the documentation of the selected record; does nothing when nothing is selected. */
    method HandleUpdateDocumentation(doc: Documentation)
      requires Valid()
      modifies this`savedRequests, this`selectedRequest
      ensures Valid()
      ensures old(selectedRequest).None? ==>
        savedRequests == old(savedRequests) && selectedRequest == None
      ensures old(selectedRequest).Some? ==>
        && savedRequests == Attached(old(savedRequests), old(selectedRequest).value, doc)
        && selectedRequest == Some(old(selectedRequest).value.(documentation := Some(doc)))
    {
      if selectedRequest.Some? {
        var updated := selectedRequest.value.(documentation := Some(doc));
        AttachedKeepsSelected(savedRequests, selectedRequest.value, doc);
        savedRequests := Attached(savedRequests, selectedRequest.value, doc);
        selectedRequest := Some(updated);
      }
    }

    /** Clicking a saved request: select it, append its snapshot as a new slot and send that slot. */
    method ResendSaved(saved: SavedRequest, parse: JsonParser, reply: Reply)
      requires Valid()
      requires saved in savedRequests
      modifies this`activeRequests, this`responses, this`selectedRequest
      ensures Valid()
      ensures selectedRequest == Some(saved) && savedRequests == old(savedRequests)
      ensures activeRequests == old(activeRequests) + [saved.request]
      ensures responses == old(responses)[|old(activeRequests)| := SlotEntry(saved.request, parse, reply)]
    {
      var index := |activeRequests|;
      OpenSaved(saved);
      var _, _ := HandleSend(saved.request, index, parse, reply);
    }

    /** The two state updates of that click before the send: the selection and the new slot. */
    method OpenSaved(saved: SavedRequest)
      requires Valid()
      requires saved in savedRequests
      modifies this`activeRequests, this`selectedRequest
      ensures Valid()
      ensures selectedRequest == Some(saved)
      ensures activeRequests == old(activeRequests) + [saved.request]
    {
      selectedRequest := Some(saved);
      activeRequests := activeRequests + [saved.request];
    }

    /** A slot's Send button: store the edited request in its slot, then send it under that index. */
    method SendFromPanel(index: int, request: RequestMethod, parse: JsonParser, reply: Reply)
      requires Valid()
      modifies this`activeRequests, this`responses
      ensures Valid()
      ensures activeRequests == Replaced(old(activeRequests), index, request)
      ensures responses == old(responses)[index := SlotEntry(request, parse, reply)]
    {
      UpdateRequest(index, request);
      var _, _ := HandleSend(request, index, parse, reply);
    }
  }
}
