/** The interaction log as the history routes see it: an owner-scoped table of
    records with listing (newest 50, newest first), lookup and deletion by
    id and owner. Every route runs behind the token gate and receives the
    caller's id from it; a failing database call surfaces as a 500 reply. */
module HistoryRoutes {
  import opened Common
  import opened HistorySchema

  const NotFoundMessage := "Conversation non trouvée"
  const DeletedMessage := "Conversation supprimée avec succès"
  const ListErrorMessage := "Erreur lors de la récupération de l'historique"
  const GetErrorMessage := "Erreur lors de la récupération de la conversation"
  const DeleteErrorMessage := "Erreur lors de la suppression de la conversation"

  /** The listing window. */
  const ListLimit := 50

  /** The replies of the three routes. */
  datatype Reply =
    | Listed(records: seq<Record>)
    | Found(record: Record)
    | Deleted(message: string)
    | NotFound(message: string)
    | ServerError(message: string)
  {
    function Code(): nat {
      match this
      case Listed(_) => 200
      case Found(_) => 200
      case Deleted(_) => 200
      case NotFound(_) => 404
      case ServerError(_) => 500
    }
  }

  /** Why a save was refused. */
  datatype SaveError = Invalid(paths: seq<Path>) | StoreFailure

  /** The `{ _id, userId }` filter shared by lookup and deletion. */
  predicate Matches(r: Record, id: RecordId, userId: UserId) {
    r.id == id && r.userId == userId
  }

  /** `History.find({ userId })`, in table order. */
  function Owned(records: seq<Record>, userId: UserId): (owned: seq<Record>) {
    Filter(records, (r: Record) => r.userId == userId)
  }

  /** The table after removing the records the filter matches. */
  function Unmatched(records: seq<Record>, id: RecordId, userId: UserId): seq<Record> {
    Filter(records, (r: Record) => !Matches(r, id, userId))
  }

  /** Sorted on `date`, newest first. */
  ghost predicate NewestFirst(s: seq<Record>) {
    forall i, j :: 0 <= i < j < |s| ==> s[i].date >= s[j].date
  }

  /** Insertion into a list sorted newest first. */
  function InsertByDate(r: Record, s: seq<Record>): (t: seq<Record>)
    requires NewestFirst(s)
    ensures NewestFirst(t)
    ensures multiset(t) == multiset(s) + multiset{r}
    ensures |t| == |s| + 1
  {
    if s == [] || r.date >= s[0].date then
      [r] + s
    else
      var rest := InsertByDate(r, s[1..]);
      assert s == [s[0]] + s[1..];
      HeadDominates(s[0], r, s[1..], rest);
      [s[0]] + rest
  }

  /** A record newer than both `r` and everything in `s` can head any list
      made of `r` and `s`, sorted. */
  lemma HeadDominates(h: Record, r: Record, s: seq<Record>, rest: seq<Record>)
    requires NewestFirst([h] + s) && h.date >= r.date
    requires NewestFirst(rest) && multiset(rest) == multiset(s) + multiset{r}
    ensures NewestFirst([h] + rest)
  {
    forall j | 0 <= j < |rest| ensures h.date >= rest[j].date {
      assert rest[j] in multiset(rest);
      if rest[j] != r {
        assert rest[j] in multiset(s);
        var k :| 0 <= k < |s| && s[k] == rest[j];
        assert ([h] + s)[0] == h && ([h] + s)[k + 1] == s[k];
      }
    }
    var t := [h] + rest;
    forall i, j | 0 <= i < j < |t| ensures t[i].date >= t[j].date {
      if i == 0 {
        assert t[j] == rest[j - 1];
      } else {
        assert t[i] == rest[i - 1] && t[j] == rest[j - 1];
      }
    }
  }

  /** `.sort({ date: -1 })`: a permutation sorted newest first (the order of
      records with equal dates is left open by the database; this is one). */
  function SortNewestFirst(s: seq<Record>): (t: seq<Record>)
    ensures NewestFirst(t)
    ensures multiset(t) == multiset(s)
    ensures |t| == |s|
  {
    if s == [] then []
    else
      assert s == [s[0]] + s[1..];
      InsertByDate(s[0], SortNewestFirst(s[1..]))
  }

  /** Listing one more record of the table. */
  lemma OwnedSnoc(s: seq<Record>, x: Record, userId: UserId)
    ensures Owned(s + [x], userId) == Owned(s, userId) + (if x.userId == userId then [x] else [])
  {
    FilterConcat(s, [x], (r: Record) => r.userId == userId);
  }

  /** Ids are unique: at most one record matches a `{ _id, userId }` filter. */
  ghost predicate UniqueIds(records: seq<Record>) {
    forall i, j :: 0 <= i < j < |records| ==> records[i].id != records[j].id
  }

  /** With unique ids, removing the one matching record at `i` is the same as
      filtering the matching records out. */
  lemma RemoveAtIsUnmatched(records: seq<Record>, i: nat, id: RecordId, userId: UserId)
    requires UniqueIds(records)
    requires i < |records| && Matches(records[i], id, userId)
    ensures records[..i] + records[i + 1..] == Unmatched(records, id, userId)
  {
    var keep := (r: Record) => !Matches(r, id, userId);
    var before, after := records[..i], records[i + 1..];
    assert records == before + ([records[i]] + after);
    FilterConcat(before, [records[i]] + after, keep);
    FilterConcat([records[i]], after, keep);
    OthersDoNotMatch(records, i, id, userId);
    FilterKeepsAll(before, keep);
    FilterKeepsAll(after, keep);
    assert Filter([records[i]], keep) == [];
  }

  /** With unique ids, no record other than the one at `i` has its id. */
  lemma OthersDoNotMatch(records: seq<Record>, i: nat, id: RecordId, userId: UserId)
    requires UniqueIds(records)
    requires i < |records| && records[i].id == id
    ensures forall x :: x in records[..i] ==> !Matches(x, id, userId)
    ensures forall x :: x in records[i + 1..] ==> !Matches(x, id, userId)
  {
    forall x | x in records[..i] ensures !Matches(x, id, userId) {
      var k :| 0 <= k < i && records[..i][k] == x;
      assert records[k].id != records[i].id;
    }
    forall x | x in records[i + 1..] ensures !Matches(x, id, userId) {
      var k :| 0 <= k < |records| - i - 1 && records[i + 1..][k] == x;
      assert records[i].id != records[i + 1 + k].id;
    }
  }

  /** What GET / promises about `out`: only the caller's records, newest
      first, at most 50 of them, each at most as often as in the table, and
      these are the newest: every record of the caller left out is no newer
      than any record listed. */
  ghost predicate IsNewestWindow(out: seq<Record>, records: seq<Record>, userId: UserId) {
    var owned := Owned(records, userId);
    && (forall r :: r in out ==> r in records && r.userId == userId)
    && NewestFirst(out)
    && |out| == (if |owned| < ListLimit then |owned| else ListLimit)
    && multiset(out) <= multiset(owned)
    && (forall r, o :: r in records && r.userId == userId && r !in out && o in out ==> r.date <= o.date)
  }

  /** The caller's newest records: the first (at most) 50 of their records
      sorted newest first, which meets the promise of GET /. */
  function Newest(records: seq<Record>, userId: UserId): (window: seq<Record>)
    ensures IsNewestWindow(window, records, userId)
  {
    var owned := Owned(records, userId);
    var sorted := SortNewestFirst(owned);
    var n := if |sorted| < ListLimit then |sorted| else ListLimit;
    NewestMembers(owned, sorted, n);
    PrefixIsNewest(sorted, n);
    assert forall r :: r in records && r.userId == userId ==> r in owned;
    sorted[..n]
  }

  /** The window is drawn from the sorted permutation of the caller's records. */
  lemma NewestMembers(owned: seq<Record>, sorted: seq<Record>, n: nat)
    requires multiset(sorted) == multiset(owned) && n <= |sorted|
    ensures multiset(sorted[..n]) <= multiset(owned)
    ensures forall r :: r in sorted[..n] ==> r in owned
    ensures forall r :: r in owned ==> r in sorted
  {
    assert sorted == sorted[..n] + sorted[n..];
    forall r | r in sorted[..n] ensures r in owned {
      assert r in multiset(sorted);
    }
    forall r | r in owned ensures r in sorted {
      assert r in multiset(owned);
    }
  }

  /** In a list sorted newest first, an element outside the first `n` is no
      newer than any element inside them. */
  lemma PrefixIsNewest(sorted: seq<Record>, n: nat)
    requires NewestFirst(sorted) && n <= |sorted|
    ensures NewestFirst(sorted[..n])
    ensures forall r, o :: r in sorted && r !in sorted[..n] && o in sorted[..n] ==> r.date <= o.date
  {
    forall i, j | 0 <= i < j < n ensures sorted[..n][i].date >= sorted[..n][j].date {
      assert sorted[..n][i] == sorted[i] && sorted[..n][j] == sorted[j];
    }
    forall r, o | r in sorted && r !in sorted[..n] && o in sorted[..n] ensures r.date <= o.date {
      var k :| 0 <= k < |sorted| && sorted[k] == r;
      var m :| 0 <= m < n && sorted[..n][m] == o;
      assert sorted[m] == o;
      assert k >= n;
    }
  }

  /** After a deletion no record matches the filter any more, so deleting the
      same id again finds nothing. */
  lemma UnmatchedHasNoMatch(records: seq<Record>, id: RecordId, userId: UserId)
    ensures forall r :: r in Unmatched(records, id, userId) ==> !Matches(r, id, userId)
  {
  }

  class HistoryStore {
    var records: seq<Record>
    /** The next `_id` to hand out. */
    var nextId: RecordId

    ghost predicate Valid()
      reads this
    {
      && UniqueIds(records)
      && (forall i :: 0 <= i < |records| ==> records[i].id < nextId)
    }

    constructor ()
      ensures Valid() && records == []
    {
      records := [];
      nextId := 0;
    }

    /** `new History(input).save()`: the record is validated against the
        schema (defaults applied) and appended; a validation error or a
        failing database call leaves the table as it was. */
    method Save(input: RecordInput, now: nat, storeOk: bool) returns (saved: Result<Record, SaveError>)
      requires Valid()
      modifies this
      ensures Valid()
      ensures saved.Ok? <==> Create(input, old(nextId), now).Ok? && storeOk
      ensures saved.Ok? ==>
        saved.value == Create(input, old(nextId), now).value
        && records == old(records) + [saved.value]
      ensures saved.Err? ==> records == old(records)
    {
      var created := Create(input, nextId, now);
      if created.Err? {
        return Err(Invalid(created.error));
      }
      if !storeOk {
        return Err(StoreFailure);
      }
      records := records + [created.value];
      nextId := nextId + 1;
      saved := Ok(created.value);
    }

    /** GET /: the caller's newest records (see IsNewestWindow); a failing
        query is a 500. */
    method List(userId: UserId, storeOk: bool) returns (reply: Reply)
      requires Valid()
      ensures !storeOk ==> reply == ServerError(ListErrorMessage)
      ensures storeOk ==> reply.Listed? && IsNewestWindow(reply.records, records, userId)
    {
      if !storeOk {
        return ServerError(ListErrorMessage);
      }
      var owned: seq<Record> := [];
      var i := 0;
      while i < |records|
        invariant 0 <= i <= |records|
        invariant owned == Owned(records[..i], userId)
      {
        OwnedSnoc(records[..i], records[i], userId);
        assert records[..i + 1] == records[..i] + [records[i]];
        if records[i].userId == userId {
          owned := owned + [records[i]];
        }
        i := i + 1;
      }
      assert records[..i] == records;
      var sorted := SortNewestFirst(owned);
      reply := Listed(sorted[..if |sorted| < ListLimit then |sorted| else ListLimit]);
      assert reply.records == Newest(records, userId);
    }

    /** GET /:id: the record with that id if the caller owns it, otherwise
        404 — whether it is absent or someone else's. */
    method Get(id: RecordId, userId: UserId, storeOk: bool) returns (reply: Reply)
      requires Valid()
      ensures !storeOk ==> reply == ServerError(GetErrorMessage)
      ensures storeOk ==> reply.Found? || reply == NotFound(NotFoundMessage)
      ensures reply.Found? ==> reply.record in records && Matches(reply.record, id, userId)
      ensures storeOk && reply.NotFound? <==> storeOk && forall r :: r in records ==> !Matches(r, id, userId)
      ensures reply.Code() == 200 <==> storeOk && exists r :: r in records && Matches(r, id, userId)
    {
      if !storeOk {
        return ServerError(GetErrorMessage);
      }
      var i := 0;
      while i < |records|
        invariant 0 <= i <= |records|
        invariant forall k :: 0 <= k < i ==> !Matches(records[k], id, userId)
      {
        if Matches(records[i], id, userId) {
          return Found(records[i]);
        }
        i := i + 1;
      }
      reply := NotFound(NotFoundMessage);
    }

    /** DELETE /:id: removes exactly the record with that id owned by the
        caller; if there is none (absent, or owned by someone else) the reply
        is the same 404 and the table is unchanged. */
    method Delete(id: RecordId, userId: UserId, storeOk: bool) returns (reply: Reply)
      requires Valid()
      modifies this
      ensures Valid() && nextId == old(nextId)
      ensures !storeOk ==> reply == ServerError(DeleteErrorMessage) && records == old(records)
      ensures storeOk && (exists r :: r in old(records) && Matches(r, id, userId)) ==>
        reply == Deleted(DeletedMessage)
        && records == Unmatched(old(records), id, userId)
        && |records| == |old(records)| - 1
      ensures storeOk && (forall r :: r in old(records) ==> !Matches(r, id, userId)) ==>
        reply == NotFound(NotFoundMessage) && records == old(records)
      ensures reply.Code() == 200 <==> |records| == |old(records)| - 1
    {
      if !storeOk {
        return ServerError(DeleteErrorMessage);
      }
      var i := 0;
      while i < |records|
        invariant 0 <= i <= |records|
        invariant forall k :: 0 <= k < i ==> !Matches(records[k], id, userId)
      {
        if Matches(records[i], id, userId) {
          RemoveAtIsUnmatched(records, i, id, userId);
          records := records[..i] + records[i + 1..];
          return Deleted(DeletedMessage);
        }
        i := i + 1;
      }
      reply := NotFound(NotFoundMessage);
    }
  }

  /** Deleting the same record twice: the second call answers 404 and changes
      nothing. */
  method DeleteTwice(store: HistoryStore, id: RecordId, userId: UserId) returns (first: Reply, second: Reply)
    requires store.Valid()
    modifies store
    ensures store.Valid()
    ensures second == NotFound(NotFoundMessage)
    ensures store.records == Unmatched(old(store.records), id, userId)
  {
    var before := store.records;
    first := store.Delete(id, userId, true);
    if first.NotFound? {
      assert Unmatched(before, id, userId) == before by {
        FilterKeepsAll(before, (r: Record) => !Matches(r, id, userId));
      }
    }
    UnmatchedHasNoMatch(before, id, userId);
    second := store.Delete(id, userId, true);
  }
}
