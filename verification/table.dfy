/** The user table: records keyed by `userId`, the upsert a PutItem performs,
    and the scan-with-filter that login uses, with DynamoDB's rule that a
    scan's Limit caps the items EVALUATED, before the filter is applied. */
module Table {
  import opened Records

  type Store = map<string, User>

  /** What the create operation guarantees of every stored record. */
  ghost predicate Invariant(store: Store)
  {
    forall k :: k in store ==> store[k].userId == k && WellFormed(store[k])
  }

  /** PutItem: an upsert keyed by `userId` that overwrites silently. */
  function Put(store: Store, u: User): (s: Store)
    ensures s.Keys == store.Keys + {u.userId}
    ensures s[u.userId] == u
    ensures forall k :: k in store && k != u.userId ==> s[k] == store[k]
  {
    store[u.userId := u]
  }

  /** Putting a well-formed record under its own key keeps the invariant. */
  lemma PutPreservesInvariant(store: Store, u: User)
    requires Invariant(store)
    requires WellFormed(u)
    ensures Invariant(Put(store, u))
  {
  }

  /** The order in which a full scan visits the table: every key once. */
  predicate IsScanOrder(store: Store, order: seq<string>)
  {
    && (forall i :: 0 <= i < |order| ==> order[i] in store)
    && (forall k :: k in store ==> k in order)
    && (forall i, j :: 0 <= i < j < |order| ==> order[i] != order[j])
  }

  /** The filter `email = :email AND password = :password`. */
  predicate Matches(u: User, email: string, password: string)
  {
    u.email == email && u.password == password
  }

  /** The records stored under `keys`, in that order. */
  function Lookup(store: Store, keys: seq<string>): (items: seq<User>)
    requires forall i :: 0 <= i < |keys| ==> keys[i] in store
    ensures |items| == |keys|
    ensures forall i :: 0 <= i < |keys| ==> items[i] == store[keys[i]]
  {
    if keys == [] then [] else [store[keys[0]]] + Lookup(store, keys[1..])
  }

  /** The records of `items` that pass the filter, in their order. */
  function Filter(items: seq<User>, email: string, password: string): (out: seq<User>)
    ensures |out| <= |items|
    ensures forall u :: u in out <==> u in items && Matches(u, email, password)
  {
    if items == [] then []
    else
      var rest := Filter(items[1..], email, password);
      assert forall u :: u in items <==> u == items[0] || u in items[1..];
      if Matches(items[0], email, password) then [items[0]] + rest else rest
  }

  /** The records a scan evaluates come from the store, and a scan that
      evaluates the whole order sees every record. */
  lemma LookupFacts(store: Store, order: seq<string>, n: nat, email: string, password: string)
    requires IsScanOrder(store, order)
    requires n <= |order|
    ensures forall u :: u in Lookup(store, order[..n]) ==> u in store.Values
    ensures n == |order| ==>
      forall k :: k in store && Matches(store[k], email, password) ==> store[k] in Lookup(store, order[..n])
  {
    var evaluated := Lookup(store, order[..n]);
    forall u | u in evaluated ensures u in store.Values {
      var i :| 0 <= i < |evaluated| && evaluated[i] == u;
      assert order[i] in store;
    }
    if n == |order| {
      forall k | k in store && Matches(store[k], email, password)
        ensures store[k] in evaluated
      {
        var i :| 0 <= i < |order| && order[i] == k;
        assert evaluated[i] == store[k];
      }
    }
  }

  /** A scan with a filter and a Limit: the first `limit` items in scan
      order are evaluated, and those passing the filter are returned. */
  function Scan(store: Store, order: seq<string>, email: string, password: string, limit: nat): (items: seq<User>)
    requires IsScanOrder(store, order)
    ensures |items| <= limit
    ensures forall u :: u in items ==> u in store.Values && Matches(u, email, password)
    ensures limit >= |order| ==>
      forall k :: k in store && Matches(store[k], email, password) ==> store[k] in items
  {
    var n := if limit < |order| then limit else |order|;
    var evaluated := Lookup(store, order[..n]);
    LookupFacts(store, order, n, email, password);
    Filter(evaluated, email, password)
  }

  /** With Limit 1 only the first record in scan order is looked at: the scan
      returns it when it matches and nothing otherwise, whatever else the
      table holds. */
  lemma {:induction false} ScanLimitOne(store: Store, order: seq<string>, email: string, password: string)
    requires IsScanOrder(store, order)
    ensures |order| == 0 ==> Scan(store, order, email, password, 1) == []
    ensures |order| > 0 && Matches(store[order[0]], email, password) ==>
      Scan(store, order, email, password, 1) == [store[order[0]]]
    ensures |order| > 0 && !Matches(store[order[0]], email, password) ==>
      Scan(store, order, email, password, 1) == []
  {
    if |order| > 0 {
      var evaluated := Lookup(store, order[..1]);
      assert evaluated == [store[order[0]]];
      assert evaluated[1..] == [];
      assert Filter(evaluated[1..], email, password) == [];
    }
  }
}
