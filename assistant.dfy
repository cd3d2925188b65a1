/** The question-answering routes: the index built from the knowledge base at
    start-up, POST /ask (validate, search, synthesise, log, reply) and
    GET /suggestions (shuffle the shared knowledge base in place, return the
    first five). The embedding search is an oracle; the routes run behind the
    token gate and receive the caller's id from it. */
module AssistantRoutes {
  import opened Common
  import opened Corpus
  import opened HistorySchema
  import HistoryRoutes

  // ---------------------------------------------------------------------------
  // The index

  datatype Metadata = Metadata(id: nat, question: string, tags: seq<string>)

  /** One indexed text with its metadata, as the vector store returns it. */
  datatype Document = Document(pageContent: string, metadata: Metadata)

  /** The texts and metadatas handed to the vector store, entry by entry from
      position `first` on: the indexed text is the answer (not the question),
      and the metadata carries the 1-based position, the question and the
      tags. */
  function IndexFrom(entries: seq<Entry>, first: nat): (docs: seq<Document>)
    ensures |docs| == |entries|
    ensures forall i :: 0 <= i < |entries| ==>
      docs[i] == Document(entries[i].answer, Metadata(first + i, entries[i].question, entries[i].tags))
  {
    if entries == [] then []
    else
      [Document(entries[0].answer, Metadata(first, entries[0].question, entries[0].tags))]
      + IndexFrom(entries[1..], first + 1)
  }

  /** `initializeVectorStore`'s mapping: one document per entry, in order,
      indexing the entry's answer; ids count from 1, so the document at
      position i has id i + 1. */
  function BuildIndex(corpus: seq<Entry>): (index: seq<Document>)
    ensures |index| == |corpus|
    ensures forall i :: 0 <= i < |corpus| ==>
      index[i].pageContent == corpus[i].answer
      && index[i].metadata == Metadata(i + 1, corpus[i].question, corpus[i].tags)
  {
    IndexFrom(corpus, 1)
  }

  /** Every document of the knowledge base's index is the answer of the entry
      its id names, and that answer is not empty. */
  lemma IndexedDocument(d: Document)
    requires d in BuildIndex(AdministrativeData())
    ensures 1 <= d.metadata.id <= 3
    ensures var e := AdministrativeData()[d.metadata.id - 1];
      d == Document(e.answer, Metadata(d.metadata.id, e.question, e.tags))
    ensures d.pageContent != "" && d.metadata.tags != [] && d.metadata.tags[0] != ""
  {
    var index := BuildIndex(AdministrativeData());
    var k :| 0 <= k < |index| && index[k] == d;
    FirstTagsDistinct();
  }

  // ---------------------------------------------------------------------------
  // POST /ask

  /** `similaritySearch(query, k)` over an index: the documents found, or
      None when the embedding provider fails. */
  type Searcher = (seq<Document>, string, nat) -> Option<seq<Document>>

  /** A search that only ever returns documents of the index, at most k. */
  ghost predicate WellBehaved(search: Searcher) {
    forall index, query, k :: search(index, query, k).Some? ==>
      |search(index, query, k).value| <= k
      && forall d :: d in search(index, query, k).value ==> d in index
  }

  const SearchLimit: nat := 3
  const NotFoundAnswer := "Désolé, je n'ai pas trouvé d'information sur ce sujet."
  const DefaultCategory := "administratif"
  const QuestionRequired := "La question est requise"
  const AskErrorMessage := "Erreur lors du traitement de la question"

  /** The JSON body of a 200 reply; `reference` is null for the fallback. */
  datatype AskResponse = AskResponse(question: string, answer: string, reference: Option<nat>, tags: seq<string>)

  datatype AskReply =
    | Answered(response: AskResponse)
    | BadRequest(message: string)
    | ServerError(message: string)
  {
    function Code(): nat {
      match this
      case Answered(_) => 200
      case BadRequest(_) => 400
      case ServerError(_) => 500
    }
  }

  /** `assistantAnswer`: the best match's text, or the fixed fallback. It is
      never empty when no result has an empty text. */
  function AssistantAnswer(results: seq<Document>): (answer: string)
    ensures results == [] ==> answer == NotFoundAnswer
    ensures results != [] ==> answer == results[0].pageContent
    ensures (forall d :: d in results ==> d.pageContent != "") ==> answer != ""
  {
    if results == [] then NotFoundAnswer else results[0].pageContent
  }

  /** `typeDemarche`: the best match's first tag when it is a non-empty
      string, otherwise "administratif". */
  function TypeDemarche(results: seq<Document>): (category: string)
    ensures category != ""
    ensures category == DefaultCategory
      || (results != [] && results[0].metadata.tags != [] && category == results[0].metadata.tags[0])
    ensures results != [] && results[0].metadata.tags != [] && results[0].metadata.tags[0] != "" ==>
      category == results[0].metadata.tags[0]
    ensures results == [] ==> category == DefaultCategory
  {
    if results != [] && results[0].metadata.tags != [] && Truthy(results[0].metadata.tags[0]) then
      results[0].metadata.tags[0]
    else
      DefaultCategory
  }

  /** The reply body: the best match's metadata and text, or the fallback
      built from the caller's own question. The answer sent is always the
      one logged, and a reference is present exactly when something matched. */
  function ResponseFor(question: string, results: seq<Document>): (r: AskResponse)
    ensures r.answer == AssistantAnswer(results)
    ensures r.reference.Some? <==> results != []
    ensures results == [] ==> r.question == question && r.tags == []
    ensures results != [] ==>
      r.question == results[0].metadata.question
      && r.reference == Some(results[0].metadata.id)
      && r.tags == results[0].metadata.tags
  {
    if results == [] then
      AskResponse(question, AssistantAnswer(results), None, [])
    else
      var best := results[0];
      AskResponse(best.metadata.question, AssistantAnswer(results), Some(best.metadata.id), best.metadata.tags)
  }

  /** The fields `/ask` hands to `new History(...)`: the caller's id and
      question, the very answer sent back, the category, the time, and the
      "terminee" status. */
  function HistoryInput(userId: UserId, question: string, results: seq<Document>, now: nat): (input: RecordInput)
    ensures input.userId == Some(userId) && input.question == Some(question)
    ensures input.reponse == Some(ResponseFor(question, results).answer)
    ensures input.typeDemarche == Some(TypeDemarche(results))
    ensures input.date == Some(now) && input.statut == Some("terminee")
  {
    RecordInput(
      Some(userId), Some(question), Some(AssistantAnswer(results)), Some(now),
      Some(TypeDemarche(results)), Some(StatusName(Terminee)))
  }

  /** With no result the reply is the fallback: the caller's question, the
      "not found" text, no reference, no tags; the category is the default. */
  lemma FallbackReply(question: string)
    ensures ResponseFor(question, []) == AskResponse(question, NotFoundAnswer, None, [])
    ensures TypeDemarche([]) == DefaultCategory
  {
  }

  /** The record `/ask` builds passes the schema whenever the question and
      the answer text are non-empty; it is owned by the caller, repeats the
      caller's question, logs exactly the answer sent back, and is
      "terminee" (not the schema's default). */
  lemma AskRecordValid(userId: UserId, question: string, results: seq<Document>, id: RecordId, now: nat)
    requires question != "" && AssistantAnswer(results) != ""
    ensures Create(HistoryInput(userId, question, results, now), id, now)
      == Ok(Record(id, userId, question, ResponseFor(question, results).answer, now,
                   TypeDemarche(results), Terminee))
  {
    assert TypeDemarche(results) != "";
  }

  /** A best match drawn from the knowledge base's index is the entry its
      reference names: the reply carries that entry's question, answer and
      tags, and the logged category is its first tag, never the default. */
  lemma CorpusMatch(question: string, results: seq<Document>)
    requires results != [] && results[0] in BuildIndex(AdministrativeData())
    ensures var r := ResponseFor(question, results);
      && r.reference.Some? && 1 <= r.reference.value <= 3
      && var e := AdministrativeData()[r.reference.value - 1];
      && r == AskResponse(e.question, e.answer, r.reference, e.tags)
      && TypeDemarche(results) == e.tags[0]
      && TypeDemarche(results) != DefaultCategory
  {
    IndexedDocument(results[0]);
    var e := AdministrativeData()[results[0].metadata.id - 1];
    assert |e.tags[0]| != |DefaultCategory|;
  }

  /** With a well-behaved search over the knowledge base's index, every
      answer is non-empty, so every validated question gets its record. */
  lemma SearchedAnswerNonEmpty(search: Searcher, question: string)
    requires WellBehaved(search)
    requires search(BuildIndex(AdministrativeData()), question, SearchLimit).Some?
    ensures AssistantAnswer(search(BuildIndex(AdministrativeData()), question, SearchLimit).value) != ""
  {
    var results := search(BuildIndex(AdministrativeData()), question, SearchLimit).value;
    if results != [] {
      IndexedDocument(results[0]);
    }
  }

  // ---------------------------------------------------------------------------
  // GET /suggestions

  datatype Suggestion = Suggestion(question: string, tags: seq<string>)

  const SuggestionLimit := 5

  /** `.map(item => ({ question, tags }))`. */
  function Project(entries: seq<Entry>): (out: seq<Suggestion>)
    ensures |out| == |entries|
    ensures forall i :: 0 <= i < |entries| ==> out[i] == Suggestion(entries[i].question, entries[i].tags)
  {
    seq(|entries|, i requires 0 <= i < |entries| => Suggestion(entries[i].question, entries[i].tags))
  }

  /** Taking the element at `k` out of a sequence takes one copy of it out of
      its multiset. */
  lemma RemoveAtMultiset<T>(b: seq<T>, k: nat)
    requires k < |b|
    ensures multiset(b[..k] + b[k + 1..]) + multiset{b[k]} == multiset(b)
  {
    assert b[k..] == [b[k]] + b[k + 1..];
    assert b == b[..k] + b[k..];
  }

  lemma MultisetCancel<T>(x: multiset<T>, y: multiset<T>, c: T)
    requires x + multiset{c} == y + multiset{c}
    ensures x == y
  {
    forall e ensures x[e] == y[e] {
      assert (x + multiset{c})[e] == (y + multiset{c})[e];
    }
  }

  /** Projection commutes with taking an element out. */
  lemma ProjectRemoveAt(b: seq<Entry>, k: nat)
    requires k < |b|
    ensures Project(b[..k] + b[k + 1..]) == Project(b)[..k] + Project(b)[k + 1..]
  {
    var rest := b[..k] + b[k + 1..];
    var pb := Project(b);
    forall i | 0 <= i < |rest| ensures Project(rest)[i] == (pb[..k] + pb[k + 1..])[i] {
      if i < k {
        assert rest[i] == b[i];
      } else {
        assert rest[i] == b[i + 1];
      }
    }
  }

  /** Matching the head of `a` with the element at `k` of a permutation `b`:
      the tail of `a` is a permutation of `b` without that element. */
  lemma PermutationTail(a: seq<Entry>, b: seq<Entry>, k: nat)
    requires multiset(a) == multiset(b) && a != [] && k < |b| && b[k] == a[0]
    ensures multiset(a[1..]) == multiset(b[..k] + b[k + 1..])
  {
    RemoveAtMultiset(b, k);
    assert a == [a[0]] + a[1..];
    MultisetCancel(multiset(a[1..]), multiset(b[..k] + b[k + 1..]), a[0]);
  }

  /** Projecting two permutations of each other gives permutations of each
      other. */
  lemma {:induction false} ProjectPermutation(a: seq<Entry>, b: seq<Entry>)
    requires multiset(a) == multiset(b)
    ensures multiset(Project(a)) == multiset(Project(b))
    decreases |a|
  {
    if a == [] {
      assert |b| == |multiset(b)| == 0;
    } else {
      assert a[0] in multiset(b);
      var k :| 0 <= k < |b| && b[k] == a[0];
      PermutationTail(a, b, k);
      ProjectPermutation(a[1..], b[..k] + b[k + 1..]);
      var pb := Project(b);
      RemoveAtMultiset(pb, k);
      ProjectRemoveAt(b, k);
      assert Project(a) == [pb[k]] + Project(a[1..]);
    }
  }

  /** With three entries and a cap of five, the suggestions are all three
      entries' questions and tags, in some order. */
  lemma SuggestionsCoverCorpus(entries: seq<Entry>)
    requires multiset(entries) == multiset(AdministrativeData())
    ensures var n := if |entries| < SuggestionLimit then |entries| else SuggestionLimit;
      multiset(Project(entries[..n])) == multiset(Project(AdministrativeData()))
  {
    assert |entries| == |multiset(entries)| == 3;
    assert entries[..3] == entries;
    ProjectPermutation(entries, AdministrativeData());
  }

  /** One exchange the sort performs: a permutation of the array. */
  method Swap(a: array<Entry>, i: nat, j: nat)
    requires i < a.Length && j < a.Length
    modifies a
    ensures a[..] == old(a[..])[i := old(a[j])][j := old(a[i])]
    ensures multiset(a[..]) == multiset(old(a[..]))
  {
    a[i], a[j] := a[j], a[i];
  }

  // ---------------------------------------------------------------------------
  // The service

  class AssistantService {
    /** `administrativeData`, shared and reordered in place by suggestions. */
    const data: array<Entry>
    /** The vector store; None while it is not built. */
    var vectorStore: Option<seq<Document>>
    /** The History collection. */
    const history: HistoryRoutes.HistoryStore

    ghost predicate Valid()
      reads this, data, history
    {
      && multiset(data[..]) == multiset(AdministrativeData())
      && (vectorStore.Some? ==> vectorStore.value == BuildIndex(AdministrativeData()))
      && history.Valid()
    }

    /** Start-up: the knowledge base in its written order, and the index
        built from it when the embedding provider answers. A failure is only
        logged: the store stays unset and is never retried. */
    constructor (history: HistoryRoutes.HistoryStore, embeddingOk: bool)
      requires history.Valid()
      ensures Valid() && this.history == history && fresh(data)
      ensures data[..] == AdministrativeData()
      ensures vectorStore == if embeddingOk then Some(BuildIndex(AdministrativeData())) else None
    {
      var entries := AdministrativeData();
      data := new Entry[|entries|](i requires 0 <= i < |entries| => entries[i]);
      this.history := history;
      new;
      assert data[..] == entries;
      if embeddingOk {
        vectorStore := Some(BuildIndex(data[..]));
      } else {
        vectorStore := None;
      }
    }

    /** POST /ask. A missing or empty question is a 400 with nothing searched
        and nothing logged (white space alone is accepted: there is no trim).
        Otherwise the index is searched for 3 results; an unset store or a
        failing search is a 500 with nothing logged. Then exactly one record
        is saved before the reply; if the save fails the reply is a 500 and
        no answer is returned, so a 200 reply implies the record is stored. */
    method Ask(userId: UserId, question: Option<string>, search: Searcher, saveOk: bool, now: nat)
      returns (reply: AskReply)
      requires Valid()
      modifies history
      ensures Valid()
      ensures question.None? || question.value == "" ==>
        reply == BadRequest(QuestionRequired) && history.records == old(history.records)
      ensures question.Some? && question.value != "" && vectorStore.None? ==>
        reply == ServerError(AskErrorMessage) && history.records == old(history.records)
      ensures question.Some? && question.value != "" && vectorStore.Some?
              && search(vectorStore.value, question.value, SearchLimit).None? ==>
        reply == ServerError(AskErrorMessage) && history.records == old(history.records)
      ensures question.Some? && question.value != "" && vectorStore.Some?
              && search(vectorStore.value, question.value, SearchLimit).Some? ==>
        var results := search(vectorStore.value, question.value, SearchLimit).value;
        var created := Create(HistoryInput(userId, question.value, results, now), old(history.nextId), now);
        && (reply.Answered? <==> created.Ok? && saveOk)
        && (reply.Answered? ==>
              reply.response == ResponseFor(question.value, results)
              && history.records == old(history.records) + [created.value])
        && (!reply.Answered? ==>
              reply == ServerError(AskErrorMessage) && history.records == old(history.records))
      ensures reply.Code() == 200 <==> |history.records| == |old(history.records)| + 1
    {
      if question.None? || question.value == "" {
        return BadRequest(QuestionRequired);
      }
      var q := question.value;
      if vectorStore.None? {
        // `vectorStore.similaritySearch` on an unset store throws.
        return ServerError(AskErrorMessage);
      }
      var found := search(vectorStore.value, q, SearchLimit);
      if found.None? {
        return ServerError(AskErrorMessage);
      }
      var results := found.value;

      var response: Option<AskResponse> := None;
      var typeDemarche := DefaultCategory;
      var assistantAnswer: string;
      if |results| == 0 {
        assistantAnswer := NotFoundAnswer;
      } else {
        var bestMatch := results[0];
        assistantAnswer := bestMatch.pageContent;
        var tags := bestMatch.metadata.tags;
        typeDemarche := if tags != [] && Truthy(tags[0]) then tags[0] else typeDemarche;
        response := Some(AskResponse(bestMatch.metadata.question, assistantAnswer, Some(bestMatch.metadata.id), tags));
      }

      var entry := RecordInput(Some(userId), Some(q), Some(assistantAnswer), Some(now),
                               Some(typeDemarche), Some(StatusName(Terminee)));
      assert entry == HistoryInput(userId, q, results, now);
      var saved := history.Save(entry, now, saveOk);
      if saved.Err? {
        return ServerError(AskErrorMessage);
      }

      if response.None? {
        response := Some(AskResponse(q, assistantAnswer, None, []));
      }
      reply := Answered(response.value);
    }

    /** GET /suggestions: the shared knowledge base is reordered in place (the
        random comparator's effect, drawn from `swaps`, is a permutation) and
        the first five entries' questions and tags are returned. */
    method Suggestions(swaps: seq<(nat, nat)>) returns (suggestions: seq<Suggestion>)
      requires Valid()
      modifies data
      ensures Valid()
      ensures multiset(data[..]) == multiset(old(data[..]))
      ensures |suggestions| <= SuggestionLimit
      ensures suggestions == Project(data[..if data.Length < SuggestionLimit then data.Length else SuggestionLimit])
    {
      var k := 0;
      while k < |swaps|
        invariant 0 <= k <= |swaps|
        invariant multiset(data[..]) == multiset(old(data[..]))
      {
        if data.Length > 0 {
          Swap(data, swaps[k].0 % data.Length, swaps[k].1 % data.Length);
        }
        k := k + 1;
      }
      var n := if data.Length < SuggestionLimit then data.Length else SuggestionLimit;
      suggestions := Project(data[..n]);
    }
  }
}
