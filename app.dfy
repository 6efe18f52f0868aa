/** The ask-a-question flow of app.py (`home`, app.py:71-107) and the two
    store diagnostics `view_db` and `clear_db`.  The MongoDB collection is an
    ordered sequence of question/answer records; whether the lookup or the
    insert raised, and what the generator produced, arrive as parameters. */
module App {
  import opened Options
  import opened PyStr
  import opened Gemini

  /** One document of the `qa` collection (the `_id` field is never read). */
  datatype Record = Record(question: string, answer: string)

  const PleaseAsk := "Please ask a question."

  /** `view_db` returns at most this many records. */
  const ViewLimit := 50

  /** `not question` in Python: the form field is absent or empty.  A
      question made only of whitespace is not missing. */
  predicate Missing(question: Option<string>) {
    question.None? || question.value == ""
  }

  /** The cache key: `question.strip().lower()`.  A key has no whitespace at
      either end and no upper-case ASCII letter, and is no longer than the
      question. */
  function Normalize(question: string): (key: string)
    ensures |key| <= |question|
    ensures key == [] || (!IsSpace(key[0]) && !IsSpace(key[|key| - 1]))
    ensures forall i :: 0 <= i < |key| ==> !('A' <= key[i] <= 'Z')
  {
    StripIsTrimmedSlice(question);
    Lower(Strip(question))
  }

  /** Questions that differ only in letter case and surrounding whitespace
      share one cache key. */
  lemma SameKey(p: string, a: string, b: string, t: string)
    requires AllSpace(p) && AllSpace(t)
    requires Lower(a) == Lower(b)
    ensures Normalize(p + a + t) == Normalize(b)
  {
    StripPadding(p, a, t);
    StripLower(a);
    StripLower(b);
  }

  /** A question of whitespace only is not missing, yet its key is empty:
      it goes on to the lookup and the generator under the key "". */
  lemma WhitespaceQuestionKey(question: string)
    requires question != [] && AllSpace(question)
    ensures !Missing(Some(question)) && Normalize(question) == []
  {
  }

  /** A cache key is its own key. */
  lemma NormalizeIdempotent(question: string)
    ensures Normalize(Normalize(question)) == Normalize(question)
  {
    var s := Strip(question);
    StripLower(s);
    StripIdempotent(question);
    LowerIdempotent(s);
  }

  /** The save condition of app.py:97: a non-empty answer without a failure
      marker. */
  predicate Cacheable(answer: string) {
    answer != [] && !HasFailureMarker(answer)
  }

  /** The save condition read off the leading code points: a lone U+26A0
      without the variation selector U+FE0F does not block saving. */
  lemma CacheableByLeadingChars(answer: string)
    ensures Cacheable(answer) <==>
      answer != [] && answer[0] != '\U{274C}' && answer[0] != '\U{23F0}' &&
      !(|answer| >= 2 && answer[0] == '\U{26A0}' && answer[1] == '\U{FE0F}')
  {
  }

  /** The record at index `i` is the first one stored under `key`. */
  predicate FirstMatchAt(records: seq<Record>, key: string, i: int) {
    0 <= i < |records| && records[i].question == key &&
    forall j :: 0 <= j < i ==> records[j].question != key
  }

  /** `find_one({"question": key})`: the answer of the first record stored
      under `key`, in insertion order. */
  function Find(records: seq<Record>, key: string): (r: Option<string>)
    ensures r.None? <==> forall i :: 0 <= i < |records| ==> records[i].question != key
    ensures r.Some? ==> exists i :: FirstMatchAt(records, key, i) && records[i].answer == r.value
  {
    if records == [] then None
    else if records[0].question == key then
      assert FirstMatchAt(records, key, 0);
      Some(records[0].answer)
    else
      var r := Find(records[1..], key);
      if r.Some? then
        var i :| FirstMatchAt(records[1..], key, i) && records[1..][i].answer == r.value;
        assert FirstMatchAt(records, key, i + 1);
        r
      else
        r
  }

  /** At most one record per question. */
  predicate KeysUnique(records: seq<Record>) {
    forall i, j :: 0 <= i < j < |records| ==> records[i].question != records[j].question
  }

  /** A record appended under a key the store did not hold is the one a
      later lookup of that key finds. */
  lemma FindAppended(store: seq<Record>, key: string, answer: string)
    requires Find(store, key).None?
    ensures Find(store + [Record(key, answer)], key) == Some(answer)
  {
    var grown := store + [Record(key, answer)];
    assert grown[|store|].question == key;
    var r := Find(grown, key);
    assert r.Some?;
    var i :| FirstMatchAt(grown, key, i) && grown[i].answer == r.value;
    assert i == |store|;
  }

  /** Which way a request went: answered with the prompt to ask, from the
      cache, or by the generator (with the prompt it was sent and whether the
      answer was saved). */
  datatype Path = Unanswered | CacheHit | Generated(prompt: string, stored: bool)

  /** One POST of the form, with the outcome of every external call it may
      make: whether `find_one` raises, what the generator produces and
      whether `insert_one` raises. */
  datatype Request = Request(question: Option<string>, lookupFails: bool, gen: GenResult, insertFails: bool)

  /** The rendered answer, the path taken and the store afterwards. */
  datatype Reply = Reply(answer: string, path: Path, store: seq<Record>)

  /** The flow of `home` for one request, as a function of the store before. */
  function Respond(store: seq<Record>, req: Request): (r: Reply)
    ensures Missing(req.question) ==> r == Reply(PleaseAsk, Unanswered, store)
    ensures !Missing(req.question) ==> r.path != Unanswered
    ensures r.path == CacheHit ==>
      !req.lookupFails && r.store == store &&
      Find(store, Normalize(req.question.value)) == Some(r.answer)
    ensures (!Missing(req.question) && !req.lookupFails &&
      Find(store, Normalize(req.question.value)).Some?) ==> r.path == CacheHit
    ensures r.path.Generated? ==>
      r.path.prompt == Prompt(req.question.value) && r.answer == Query(req.gen) &&
      (r.path.stored <==> Cacheable(r.answer) && !req.insertFails)
    ensures r.store == if r.path.Generated? && r.path.stored
      then store + [Record(Normalize(req.question.value), r.answer)] else store
    ensures req.gen.Err? ==> r.store == store
  {
    if Missing(req.question) then Reply(PleaseAsk, Unanswered, store)
    else
      var question := req.question.value;
      var key := Normalize(question);
      var cached := if req.lookupFails then None else Find(store, key);
      if cached.Some? then Reply(cached.value, CacheHit, store)
      else
        var answer := Query(req.gen);
        var stored := Cacheable(answer) && !req.insertFails;
        Reply(answer, Generated(Prompt(question), stored),
              if stored then store + [Record(key, answer)] else store)
  }

  /** A request whose lookup succeeds saves an answer only under a key the
      store did not hold, so it never introduces a duplicate. */
  lemma RespondKeepsKeysUnique(store: seq<Record>, req: Request)
    requires KeysUnique(store) && !req.lookupFails
    ensures KeysUnique(Respond(store, req).store)
  {
  }

  /** A request to the form, or a call of the bulk-clear route. */
  datatype Action = Ask(req: Request) | Clear

  /** The store after a sequence of actions, one after another. */
  function Run(store: seq<Record>, actions: seq<Action>): seq<Record>
    decreases |actions|
  {
    if actions == [] then store
    else
      var next := match actions[0]
        case Ask(req) => Respond(store, req).store
        case Clear => [];
      Run(next, actions[1..])
  }

  predicate LookupsSucceed(actions: seq<Action>) {
    forall k :: 0 <= k < |actions| ==> actions[k].Ask? ==> !actions[k].req.lookupFails
  }

  /** While every lookup succeeds, sequential use never stores two records
      for one question. */
  lemma {:induction false} RunKeepsKeysUnique(store: seq<Record>, actions: seq<Action>)
    requires KeysUnique(store)
    requires LookupsSucceed(actions)
    ensures KeysUnique(Run(store, actions))
    decreases |actions|
  {
    if actions != [] {
      var next := match actions[0]
        case Ask(req) => Respond(store, req).store
        case Clear => [];
      assert LookupsSucceed(actions[1..]) by {
        forall k | 0 <= k < |actions| - 1 ensures actions[1..][k].Ask? ==> !actions[1..][k].req.lookupFails {
          assert actions[1..][k] == actions[k + 1];
        }
      }
      if actions[0].Ask? {
        RespondKeepsKeysUnique(store, actions[0].req);
      }
      RunKeepsKeysUnique(next, actions[1..]);
    }
  }

  /** On a successful lookup that finds the key, the stored answer is
      returned verbatim and nothing changes. */
  lemma CacheHitServesStored(store: seq<Record>, req: Request, answer: string)
    requires !Missing(req.question) && !req.lookupFails
    requires Find(store, Normalize(req.question.value)) == Some(answer)
    ensures Respond(store, req) == Reply(answer, CacheHit, store)
  {
  }

  /** Once an answer has been saved, the same question asked again, in any
      letter case and with any surrounding whitespace, is answered from the
      cache with that answer and does not reach the generator. */
  lemma SavedAnswerIsServed(store: seq<Record>, req: Request, again: Request, p: string, a: string, t: string)
    requires !Missing(req.question) && !req.lookupFails
    requires Respond(store, req).path.Generated? && Respond(store, req).path.stored
    requires again.question.Some? && !again.lookupFails
    requires AllSpace(p) && AllSpace(t) && Lower(a) == Lower(req.question.value)
    requires again.question.value == p + a + t
    ensures Respond(Respond(store, req).store, again) ==
      Reply(Respond(store, req).answer, CacheHit, Respond(store, req).store)
  {
    var question := req.question.value;
    var key := Normalize(question);
    assert Normalize(again.question.value) == key && again.question.value != [] by {
      SameKey(p, a, question, t);
      assert |a| == |Lower(a)| == |question|;
    }
    var first := Respond(store, req);
    assert Find(store, key).None?;
    var grown := store + [Record(key, first.answer)];
    assert first.store == grown;
    FindAppended(store, key, first.answer);
    CacheHitServesStored(grown, again, first.answer);
  }

  /** When `find_one` raises, a cacheable response is saved whatever the
      store already holds. */
  lemma FailedLookupSaves(store: seq<Record>, req: Request)
    requires !Missing(req.question) && req.lookupFails && req.gen.Ok? && !req.insertFails
    requires Cacheable(Strip(req.gen.text))
    ensures Respond(store, req).store ==
      store + [Record(Normalize(req.question.value), Strip(req.gen.text))]
  {
    var r := Respond(store, req);
    assert r.path.Generated? && r.answer == Strip(req.gen.text);
  }

  /** Lookup failures are what the uniqueness above depends on: the same
      question asked twice while `find_one` raises is saved twice, whatever
      the store held before. */
  lemma LookupFailureDuplicates(store: seq<Record>, question: string, text: string)
    requires question != [] && Cacheable(Strip(text))
    ensures var req := Request(Some(question), true, Ok(text), false);
      var rec := Record(Normalize(question), Strip(text));
      var twice := Respond(Respond(store, req).store, req).store;
      twice == store + [rec] + [rec] && !KeysUnique(twice)
  {
    var req := Request(Some(question), true, Ok(text), false);
    var rec := Record(Normalize(question), Strip(text));
    FailedLookupSaves(store, req);
    FailedLookupSaves(store + [rec], req);
    var twice := store + [rec] + [rec];
    assert !KeysUnique(twice) by {
      assert twice[|store|].question == twice[|store| + 1].question;
    }
  }

  /** The state of the `qa` collection, updated in place by the routes. */
  class AnswerStore {
    var records: seq<Record>

    constructor ()
      ensures records == []
    {
      records := [];
    }

    /** `home` on a POST: the rendered answer and the path taken; on a miss
        the answer is saved when it passes the save condition. */
    method Ask(question: Option<string>, lookupFails: bool, gen: GenResult, insertFails: bool)
      returns (answer: string, path: Path)
      modifies this
      ensures Reply(answer, path, records) ==
        Respond(old(records), Request(question, lookupFails, gen, insertFails))
    {
      if Missing(question) {
        return PleaseAsk, Unanswered;
      }
      var key := Normalize(question.value);
      if !lookupFails {
        var cached := Find(records, key);
        if cached.Some? {
          return cached.value, CacheHit;
        }
      }
      var prompt := Prompt(question.value);
      answer := Query(gen);
      var stored := false;
      if Cacheable(answer) && !insertFails {
        records := records + [Record(key, answer)];
        stored := true;
      }
      path := Generated(prompt, stored);
    }

    /** `clear_db`: deletes every record and reports how many. */
    method Clear() returns (deleted: nat, message: string)
      modifies this
      ensures records == []
      ensures deleted == |old(records)|
      ensures message == "Deleted " + Decimal(deleted) + " records"
    {
      deleted := |records|;
      records := [];
      message := "Deleted " + Decimal(deleted) + " records";
    }

    /** `view_db`: the total count and the first records, at most
        `ViewLimit` of them. */
    method View() returns (total: nat, data: seq<Record>)
      ensures total == |records|
      ensures |data| <= ViewLimit && data <= records
      ensures |data| == |records| || |data| == ViewLimit
    {
      total := |records|;
      var n := if |records| < ViewLimit then |records| else ViewLimit;
      data := records[..n];
    }
  }
}
