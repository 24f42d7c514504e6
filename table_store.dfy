/**
 * The remote table store the admin screens talk to, reduced to the tables and
 * calls the handlers use. Every call takes a `Fault` saying how the remote side
 * answers this time: normally (`NoFault`), with an error object in the reply
 * (`FailWith`), or by throwing (`Throw`, a transport failure). Which fault
 * occurs is outside the program's control, so it is a parameter of the model.
 */
module TableStore {

  type UserId = nat
  type HistoryId = nat

  datatype Role = AdminRole | ManagerRole | UserRole
  datatype Placement = Prepend | Append

  /** The error object a reply may carry: a SQLSTATE code and a message. */
  datatype StoreError = StoreError(code: string, message: string)

  /** PostgreSQL's unique-violation error, as the store reports a clash on `proxy_string`. */
  const UniqueViolation := StoreError("23505", "duplicate key value violates unique constraint")

  datatype Fault = NoFault | FailWith(err: StoreError) | Throw

  /** What the client sees from one call. */
  datatype Reply = Ok | Rejected(err: StoreError) | Thrown

  datatype HistoryRow = HistoryRow(
    id: HistoryId, uploadedBy: UserId, fileName: string, proxyCount: int, position: Placement)

  datatype UserRow = UserRow(username: string, accessKey: string, role: Role, isActive: bool)

  /** Reply to inserting a row whose unique column takes a value that is (or is not) `present`. */
  function UniqueInsertReply(present: bool, f: Fault): (r: Reply)
    ensures f.NoFault? ==> (r.Ok? <==> !present)
    ensures f.NoFault? && present ==> r == Rejected(UniqueViolation)
    ensures !f.NoFault? ==> !r.Ok?
  {
    match f
    case Throw => Thrown
    case FailWith(e) => Rejected(e)
    case NoFault => if present then Rejected(UniqueViolation) else Ok
  }

  /** Reply to a call that has no constraint to violate. */
  function PlainReply(f: Fault): (r: Reply)
    ensures r.Ok? <==> f.NoFault?
  {
    match f
    case Throw => Thrown
    case FailWith(e) => Rejected(e)
    case NoFault => Ok
  }

  /** The `proxies` table after inserting `value` with reply `r`; new rows start unused. */
  function ProxiesAfterInsert(proxies: map<string, bool>, value: string, r: Reply): (p: map<string, bool>)
    ensures p.Keys == if r.Ok? then proxies.Keys + {value} else proxies.Keys
    ensures r.Ok? ==> p[value] == false
    ensures forall v :: v in proxies && (v != value || !r.Ok?) ==> p[v] == proxies[v]
  {
    if r.Ok? then proxies[value := false] else proxies
  }

  /** `history` without the rows whose id is `id` (`delete().eq('id', id)`). */
  function WithoutRow(history: seq<HistoryRow>, id: HistoryId): (h: seq<HistoryRow>)
    ensures forall r :: r in h <==> r in history && r.id != id
    ensures |h| <= |history|
    ensures (forall r :: r in history ==> r.id != id) ==> h == history
  {
    if history == [] then []
    else if history[0].id == id then WithoutRow(history[1..], id)
    else [history[0]] + WithoutRow(history[1..], id)
  }

  /** How many proxies a consumer has claimed (`count` with `eq('is_used', true)`). */
  function UsedCount(proxies: map<string, bool>): (n: nat)
    ensures n <= |proxies|
  {
    var used := set v | v in proxies && proxies[v];
    assert used <= proxies.Keys;
    SubsetCard(used, proxies.Keys);
    |used|
  }

  lemma SubsetCard<T>(a: set<T>, b: set<T>)
    requires a <= b
    ensures |a| <= |b|
  {
    assert b == a + (b - a);
  }

  class Store {
    /** `proxies` table: `proxy_string` (unique) to `is_used`. */
    var proxies: map<string, bool>
    /** `upload_history` table, in insertion order. */
    var history: seq<HistoryRow>
    /** `users` table, by id. */
    var users: map<UserId, UserRow>
    /** Ids the store has not handed out yet start here. */
    var nextHistoryId: HistoryId
    var nextUserId: UserId

    ghost predicate Valid()
      reads this`history, this`nextHistoryId, this`users, this`nextUserId
    {
      && (forall r :: r in history ==> r.id < nextHistoryId)
      && (forall u :: u in users ==> u < nextUserId)
    }

    constructor ()
      ensures Valid()
      ensures proxies == map[] && history == [] && users == map[]
    {
      proxies, history, users := map[], [], map[];
      nextHistoryId, nextUserId := 0, 0;
    }

    /** `from('proxies').insert({ proxy_string: value })`. */
    method InsertProxy(value: string, f: Fault) returns (r: Reply)
      modifies this`proxies
      ensures r == UniqueInsertReply(value in old(proxies), f)
      ensures proxies == ProxiesAfterInsert(old(proxies), value, r)
    {
      r := UniqueInsertReply(value in proxies, f);
      proxies := ProxiesAfterInsert(proxies, value, r);
    }

    /** `from('upload_history').insert({...})`; the new row gets a fresh id. */
    method InsertHistory(uploadedBy: UserId, fileName: string, proxyCount: int, position: Placement, f: Fault)
      returns (r: Reply)
      requires Valid()
      modifies this`history, this`nextHistoryId
      ensures Valid()
      ensures r == PlainReply(f)
      ensures history == if r.Ok?
        then old(history) + [HistoryRow(old(nextHistoryId), uploadedBy, fileName, proxyCount, position)]
        else old(history)
      ensures nextHistoryId >= old(nextHistoryId)
    {
      r := PlainReply(f);
      if r.Ok? {
        history := history + [HistoryRow(nextHistoryId, uploadedBy, fileName, proxyCount, position)];
        nextHistoryId := nextHistoryId + 1;
      }
    }

    /** `from('upload_history').delete().eq('id', id)`. */
    method DeleteHistory(id: HistoryId, f: Fault) returns (r: Reply)
      requires Valid()
      modifies this`history
      ensures Valid()
      ensures r == PlainReply(f)
      ensures history == if r.Ok? then WithoutRow(old(history), id) else old(history)
    {
      r := PlainReply(f);
      if r.Ok? {
        history := WithoutRow(history, id);
      }
    }

    /** `from('users').insert({...})`; the store fills in the id and `is_active := true`. */
    method InsertUser(username: string, accessKey: string, role: Role, f: Fault) returns (r: Reply)
      requires Valid()
      modifies this`users, this`nextUserId
      ensures Valid()
      ensures r == PlainReply(f)
      ensures users == if r.Ok?
        then old(users)[old(nextUserId) := UserRow(username, accessKey, role, true)]
        else old(users)
      ensures old(nextUserId) !in old(users)
    {
      r := PlainReply(f);
      if r.Ok? {
        users := users[nextUserId := UserRow(username, accessKey, role, true)];
        nextUserId := nextUserId + 1;
      }
    }

    /** `from('users').update({ is_active: active }).eq('id', id)`; no row matches an unknown id. */
    method SetUserActive(id: UserId, active: bool, f: Fault) returns (r: Reply)
      requires Valid()
      modifies this`users
      ensures Valid()
      ensures r == PlainReply(f)
      ensures users == if r.Ok? && id in old(users)
        then old(users)[id := old(users)[id].(isActive := active)]
        else old(users)
    {
      r := PlainReply(f);
      if r.Ok? && id in users {
        users := users[id := users[id].(isActive := active)];
      }
    }

    /** `from('users').delete().eq('id', id)`. */
    method DeleteUser(id: UserId, f: Fault) returns (r: Reply)
      requires Valid()
      modifies this`users
      ensures Valid()
      ensures r == PlainReply(f)
      ensures users == if r.Ok? then old(users) - {id} else old(users)
    {
      r := PlainReply(f);
      if r.Ok? {
        users := users - {id};
      }
    }

    /** `from('proxies').delete().neq('id', <nil uuid>)`: no row has the nil id, so every row goes. */
    method DeleteAllProxies(f: Fault) returns (r: Reply)
      modifies this`proxies
      ensures r == PlainReply(f)
      ensures proxies == if r.Ok? then map[] else old(proxies)
    {
      r := PlainReply(f);
      if r.Ok? {
        proxies := map[];
      }
    }
  }
}
