/** The contact-message collection: a presence-checked append and a listing
    ordered newest first. The database is a sequence in insertion order; the
    creation timestamp the database assigns is the `now` parameter.
 */
module Contacts {
  import opened Http

  datatype Contact = Contact(name: JsValue, email: JsValue, message: JsValue, createdAt: int)

  /** The fields `submitContact` reads from the request body. */
  datatype ContactRequest = ContactRequest(name: JsValue, email: JsValue, message: JsValue)

  const AllFieldsRequired: string := "All fields are required"
  const Submitted: string := "\U{2705} Message submitted successfully"
  const ServerError: string := "Server error"
  const FetchFailed: string := "Failed to fetch messages"

  /** The presence check: name, email and message all truthy. */
  predicate Complete(req: ContactRequest)
  {
    Truthy(req.name) && Truthy(req.email) && Truthy(req.message)
  }

  /** `submitContact`. `fault` stands for a failing create; a failed
      single-record write leaves the collection as it was. */
  function Submit(store: seq<Contact>, req: ContactRequest, now: int, fault: bool): (h: Handled<Contact>)
    ensures !Complete(req) ==>
              Rejected(h, store, StatusBadRequest) && h.response.body == Error(AllFieldsRequired)
    ensures Complete(req) && fault ==>
              Rejected(h, store, StatusServerError) && h.response.body == Error(ServerError)
    ensures Complete(req) && !fault ==>
              && h.store == store + [Contact(req.name, req.email, req.message, now)]
              && h.response == Response(StatusCreated, Message(Submitted))
    ensures h.response.status == StatusCreated <==> Complete(req) && !fault
    ensures h.store != store ==> h.response.status == StatusCreated
  {
    if !Complete(req) then
      Handled(Response(StatusBadRequest, Error(AllFieldsRequired)), store)
    else if fault then
      Handled(Response(StatusServerError, Error(ServerError)), store)
    else
      Handled(Response(StatusCreated, Message(Submitted)), store + [Contact(req.name, req.email, req.message, now)])
  }

  /** The validation runs before the database is touched: a rejected request
      gets the same answer whatever the collection holds, whatever the clock
      reads and whether or not the database would have failed. */
  lemma RejectionNeverReachesStore(s1: seq<Contact>, s2: seq<Contact>, req: ContactRequest,
                                   now1: int, now2: int, fault1: bool, fault2: bool)
    requires !Complete(req)
    ensures Submit(s1, req, now1, fault1).response == Submit(s2, req, now2, fault2).response
    ensures Submit(s1, req, now1, fault1).store == s1
  {
  }

  /** Ordered by creation time, newest first. */
  predicate NewestFirst(s: seq<Contact>)
  {
    forall i, j :: 0 <= i < j < |s| ==> s[i].createdAt >= s[j].createdAt
  }

  /** The inductive step of `Insert`: the head of a newest-first list, newer
      than `c`, still leads once `c` joins the tail. */
  lemma HeadStaysFirst(s: seq<Contact>, c: Contact, rest: seq<Contact>)
    requires NewestFirst(s) && |s| > 0 && c.createdAt < s[0].createdAt
    requires NewestFirst(rest) && multiset(rest) == multiset(s[1..]) + multiset{c}
    ensures NewestFirst([s[0]] + rest)
  {
    forall x | x in rest ensures s[0].createdAt >= x.createdAt {
      assert x in multiset(rest);
      if x != c {
        assert x in multiset(s[1..]);
        var j :| 0 <= j < |s[1..]| && s[1..][j] == x;
        assert s[j + 1] == x;
      }
    }
    var t := [s[0]] + rest;
    forall i, j | 0 <= i < j < |t| ensures t[i].createdAt >= t[j].createdAt {
      assert t[j] == rest[j - 1];
      if i > 0 {
        assert t[i] == rest[i - 1];
      } else {
        assert rest[j - 1] in rest;
      }
    }
  }

  /** Puts `c` into a newest-first list ahead of every record no newer
      than it. */
  function Insert(c: Contact, s: seq<Contact>): (r: seq<Contact>)
    requires NewestFirst(s)
    ensures NewestFirst(r)
    ensures multiset(r) == multiset(s) + multiset{c}
    ensures |r| == |s| + 1
  {
    if |s| == 0 || c.createdAt >= s[0].createdAt then
      [c] + s
    else
      assert s == [s[0]] + s[1..];
      var rest := Insert(c, s[1..]);
      HeadStaysFirst(s, c, rest);
      [s[0]] + rest
  }

  /** The `sort({createdAt: -1})` of the listing, as a stable insertion sort. */
  function SortNewestFirst(s: seq<Contact>): (r: seq<Contact>)
    ensures NewestFirst(r)
    ensures multiset(r) == multiset(s)
  {
    if |s| == 0 then []
    else
      assert s == [s[0]] + s[1..];
      Insert(s[0], SortNewestFirst(s[1..]))
  }

  /** `getContacts`: every record exactly once, newest first, with the
      collection left as it was. */
  function List(store: seq<Contact>, fault: bool): (h: Handled<Contact>)
    ensures h.store == store
    ensures !fault ==> h.response.status == StatusOk && h.response.body.Listing?
    ensures !fault ==> NewestFirst(h.response.body.records)
    ensures !fault ==> multiset(h.response.body.records) == multiset(store)
    ensures fault ==> h.response == Response(StatusServerError, Error(FetchFailed))
  {
    if fault then Handled(Response(StatusServerError, Error(FetchFailed)), store)
    else Handled(Response(StatusOk, Listing(SortNewestFirst(store))), store)
  }

  /** A collection already newest first is listed as it stands. */
  lemma {:induction false} SortKeepsOrderedInput(s: seq<Contact>)
    requires NewestFirst(s)
    ensures SortNewestFirst(s) == s
  {
    if |s| > 0 {
      SortKeepsOrderedInput(s[1..]);
      assert SortNewestFirst(s[1..]) == s[1..];
      assert |s| == 1 || s[0].createdAt >= s[1..][0].createdAt;
    }
  }

  /** Listing twice in a row orders the same way: the ordering is stable
      under re-sorting. */
  lemma {:induction false} SortIdempotent(s: seq<Contact>)
    ensures SortNewestFirst(SortNewestFirst(s)) == SortNewestFirst(s)
  {
    SortKeepsOrderedInput(SortNewestFirst(s));
  }

  /** A fresh submission carrying the latest timestamp is listed first. */
  lemma NewestSubmissionListedFirst(store: seq<Contact>, req: ContactRequest, now: int)
    requires Complete(req)
    requires forall i :: 0 <= i < |store| ==> store[i].createdAt < now
    ensures List(Submit(store, req, now, false).store, false).response.body.records[0]
            == Contact(req.name, req.email, req.message, now)
  {
    var c := Contact(req.name, req.email, req.message, now);
    var s := store + [c];
    var r := SortNewestFirst(s);
    assert c in multiset(s);
    assert c in multiset(r);
    var k :| 0 <= k < |r| && r[k] == c;
    assert r[0].createdAt >= now;
    assert forall i :: 0 <= i < |s| && s[i].createdAt >= now ==> s[i] == c;
    assert r[0] in multiset(s);
  }
}
