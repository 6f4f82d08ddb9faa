/**
 * The store's `find(filter).sort("date", -1).limit(n)` as the handlers use it:
 * the documents matching a filter, ordered by `date` descending, cut to a limit.
 * Documents with equal dates come back in an order the store does not promise.
 */
module Query {
  import opened Wrappers
  import opened Bson

  /** The filters the handlers build: `user_id` equality, `date` equality and `date` `$lt` a string. */
  datatype Filter = Filter(userId: Option<Value>, date: Option<Value>, dateBefore: Option<string>)

  const Everything := Filter(None, None, None)

  /**
   * Equality on a field uses `Get`, so a null in the filter also matches a
   * document without that field. `$lt` with a string operand only matches
   * string values (the store never compares across types in a query).
   */
  predicate Matches(d: Doc, f: Filter)
  {
    && (f.userId.Some? ==> Get(d, "user_id") == f.userId.value)
    && (f.date.Some? ==> Get(d, "date") == f.date.value)
    && (f.dateBefore.Some? ==> Get(d, "date").Str? && StrLt(Get(d, "date").s, f.dateBefore.value))
  }

  datatype Limit = Unlimited | AtMost(n: nat)

  /** pymongo's `cursor.limit(n)`: 0 means no limit, a negative n a single batch of at most -n. */
  function CursorLimit(n: int): (r: Limit)
    ensures r.Unlimited? <==> n == 0
    ensures r.AtMost? ==> r.n > 0 && (r.n == n || r.n == -n)
  {
    if n == 0 then Unlimited else AtMost(if n < 0 then -n else n)
  }

  function DateOf(d: Doc): Value
  {
    Get(d, "date")
  }

  predicate Distinct<T(==)>(s: seq<T>)
  {
    forall i, j :: 0 <= i < j < |s| ==> s[i] != s[j]
  }

  predicate SortedByDateDesc(s: seq<Doc>)
  {
    forall i, j :: 0 <= i < j < |s| ==> ValueLe(DateOf(s[j]), DateOf(s[i]))
  }

  /** The documents of a set in the order the store happens to scan them. */
  ghost function Enumerate(s: set<Doc>): (r: seq<Doc>)
    ensures |r| == |s|
    ensures forall x :: x in r <==> x in s
    ensures Distinct(r)
    decreases |s|
  {
    if s == {} then []
    else
      var x :| x in s;
      var rest := Enumerate(s - {x});
      assert forall j :: 0 <= j < |rest| ==> rest[j] in s - {x};
      [x] + rest
  }

  lemma SortedPrepend(h: Doc, s: seq<Doc>)
    requires SortedByDateDesc(s)
    requires s != [] ==> ValueLe(DateOf(s[0]), DateOf(h))
    ensures SortedByDateDesc([h] + s)
  {
    forall j | 0 < j < |s| ensures ValueLe(DateOf(s[j]), DateOf(h)) {
      ValueLeTransitive(DateOf(s[j]), DateOf(s[0]), DateOf(h));
    }
  }

  /** Insert one document into a date-descending sequence. */
  function Insert(d: Doc, s: seq<Doc>): (r: seq<Doc>)
    requires SortedByDateDesc(s)
    ensures |r| == |s| + 1
    ensures forall x :: x in r <==> x == d || x in s
    ensures SortedByDateDesc(r)
    ensures Distinct(s) && d !in s ==> Distinct(r)
  {
    if s == [] then [d]
    else if ValueLe(DateOf(s[0]), DateOf(d)) then
      SortedPrepend(d, s);
      [d] + s
    else
      var tail := Insert(d, s[1..]);
      ValueLeTotal(DateOf(s[0]), DateOf(d));
      assert tail[0] == d || tail[0] in s[1..];
      SortedPrepend(s[0], tail);
      assert Distinct(s) ==> s[0] !in s[1..];
      [s[0]] + tail
  }

  /** `sort("date", -1)`. */
  function Sort(s: seq<Doc>): (r: seq<Doc>)
    ensures |r| == |s|
    ensures forall x :: x in r <==> x in s
    ensures SortedByDateDesc(r)
    ensures Distinct(s) ==> Distinct(r)
  {
    if s == [] then []
    else
      assert Distinct(s) ==> s[0] !in s[1..];
      Insert(s[0], Sort(s[1..]))
  }

  function Take(s: seq<Doc>, lim: Limit): seq<Doc>
  {
    if lim.AtMost? && lim.n < |s| then s[..lim.n] else s
  }

  ghost function MatchSet(docs: set<Doc>, f: Filter): set<Doc>
  {
    set d | d in docs && Matches(d, f)
  }

  /** What the limit leaves of n matches. */
  function Capped(n: nat, lim: Limit): nat
  {
    if lim.AtMost? && lim.n < n then lim.n else n
  }

  lemma TakeKeepsTop(s: seq<Doc>, lim: Limit, d: Doc)
    requires SortedByDateDesc(s) && d in s && d !in Take(s, lim)
    ensures lim.AtMost? && |Take(s, lim)| == lim.n
    ensures forall i :: 0 <= i < |Take(s, lim)| ==> ValueLe(DateOf(d), DateOf(Take(s, lim)[i]))
  {
    var j :| 0 <= j < |s| && s[j] == d;
    assert lim.AtMost? && lim.n < |s|;
    assert j >= lim.n;
  }

  /** The properties of `Find`, proved for a sorted listing of exactly the matches. */
  lemma TakeOfMatches(docs: set<Doc>, f: Filter, lim: Limit, all: seq<Doc>)
    requires SortedByDateDesc(all) && Distinct(all)
    requires |all| == |MatchSet(docs, f)|
    requires forall x :: x in all <==> x in MatchSet(docs, f)
    ensures forall i :: 0 <= i < |Take(all, lim)| ==> Take(all, lim)[i] in docs && Matches(Take(all, lim)[i], f)
    ensures SortedByDateDesc(Take(all, lim)) && Distinct(Take(all, lim))
    ensures |Take(all, lim)| == Capped(|MatchSet(docs, f)|, lim)
    ensures forall d :: d in docs && Matches(d, f) && d !in Take(all, lim) ==>
              lim.AtMost? && |Take(all, lim)| == lim.n &&
              forall i :: 0 <= i < |Take(all, lim)| ==> ValueLe(DateOf(d), DateOf(Take(all, lim)[i]))
  {
    var r := Take(all, lim);
    assert forall i :: 0 <= i < |r| ==> r[i] == all[i];
    forall i | 0 <= i < |r| ensures r[i] in docs && Matches(r[i], f) {
      assert all[i] in all;
    }
    forall d | d in docs && Matches(d, f) && d !in r
      ensures lim.AtMost? && |r| == lim.n
      ensures forall i :: 0 <= i < |r| ==> ValueLe(DateOf(d), DateOf(r[i]))
    {
      assert d in MatchSet(docs, f);
      TakeKeepsTop(all, lim, d);
    }
  }

  /**
   * `find(filter).sort("date", -1).limit(lim)` over the documents `docs`.
   * The result holds distinct matching documents, latest date first, as many
   * as there are matches or as the limit allows; a matching document left
   * out is one the limit cut, and its date is no later than any returned.
   */
  ghost function Find(docs: set<Doc>, f: Filter, lim: Limit): (r: seq<Doc>)
    ensures forall i :: 0 <= i < |r| ==> r[i] in docs && Matches(r[i], f)
    ensures SortedByDateDesc(r)
    ensures Distinct(r)
    ensures |r| == Capped(|MatchSet(docs, f)|, lim)
    ensures forall d :: d in docs && Matches(d, f) && d !in r ==>
              lim.AtMost? && |r| == lim.n &&
              forall i :: 0 <= i < |r| ==> ValueLe(DateOf(d), DateOf(r[i]))
  {
    var all := Sort(Enumerate(MatchSet(docs, f)));
    TakeOfMatches(docs, f, lim, all);
    Take(all, lim)
  }

  /** `find_one(filter, sort=[("date", -1)])`: a match with the latest date, if there is a match. */
  lemma FindOneLatest(docs: set<Doc>, f: Filter)
    ensures var r := Find(docs, f, AtMost(1));
            && |r| <= 1
            && (r != [] <==> exists d :: d in docs && Matches(d, f))
            && (r != [] ==> r[0] in docs && Matches(r[0], f))
            && (r != [] ==> forall d :: d in docs && Matches(d, f) ==> ValueLe(DateOf(d), DateOf(r[0])))
  {
    var r := Find(docs, f, AtMost(1));
    if d :| d in docs && Matches(d, f) {
      assert d in MatchSet(docs, f);
      assert r != [];
      forall e | e in docs && Matches(e, f) ensures ValueLe(DateOf(e), DateOf(r[0])) {
        if e == r[0] {
          ValueLeTotal(DateOf(e), DateOf(e));
        } else {
          assert e !in r;
        }
      }
    }
  }
}
