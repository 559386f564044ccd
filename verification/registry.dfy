/** The Redis key space the chat gateway keeps its connection registry in.

    Two key families matter:
      CHAT-CONNID-TO-NID-<conn>  the neighbour id a websocket connection identified as
      CHAT-NID-TO-CONNID-<nid>   a JSON-encoded PHP array of the connection ids of a neighbour
    Redis stores strings; the model keeps the few shapes these keys hold as
    `Value` constructors instead of their JSON text. */
module Registry {
  import opened Wrappers
  import opened Text
  import opened Wire

  const FwdPrefix: string := "CHAT-CONNID-TO-NID-"
  const RevPrefix: string := "CHAT-NID-TO-CONNID-"

  /** A Redis key. `RevBlank` is the reverse key written for a neighbour id
      that is PHP null: the prefix with nothing after it. */
  datatype Key = Fwd(conn: int) | Rev(nid: int) | RevBlank | Other(name: string)

  /** The key's name in Redis. */
  function KeyName(k: Key): string
  {
    match k
    case Fwd(conn) => FwdPrefix + IntToDecimal(conn)
    case Rev(nid) => RevPrefix + IntToDecimal(nid)
    case RevBlank => RevPrefix
    case Other(name) => name
  }

  predicate IsChatKey(k: Key)
  {
    k.Fwd? || k.Rev? || k.RevBlank?
  }

  /** One element of a PHP array: its integer index and the connection id. */
  datatype Entry = Entry(index: nat, conn: int)

  /** A PHP array of connection ids, in iteration order. `json_encode` and
      `json_decode(..., true)` preserve both indices and order, so the
      array stands for the stored JSON text. */
  type PhpArray = seq<Entry>

  predicate DistinctIndices(a: PhpArray)
  {
    forall i, j :: 0 <= i < j < |a| ==> a[i].index != a[j].index
  }

  /** The values of the array in iteration order: what `foreach` visits. */
  function ConnsOf(a: PhpArray): (r: seq<int>)
    ensures |r| == |a|
    ensures forall i :: 0 <= i < |a| ==> r[i] == a[i].conn
  {
    if |a| == 0 then [] else ConnsOf(a[..|a| - 1]) + [a[|a| - 1].conn]
  }

  /** The index `$array[] = x` uses: one past the largest index, 0 when empty. */
  function NextIndex(a: PhpArray): (n: nat)
    ensures forall i :: 0 <= i < |a| ==> a[i].index < n
    ensures |a| == 0 ==> n == 0
    ensures |a| > 0 ==> exists i :: 0 <= i < |a| && a[i].index + 1 == n
  {
    if |a| == 0 then 0
    else
      var m := NextIndex(a[..|a| - 1]);
      var last := a[|a| - 1].index + 1;
      if last > m then last else m
  }

  /** `$array[] = conn`. */
  function Push(a: PhpArray, conn: int): (r: PhpArray)
    requires DistinctIndices(a)
    ensures DistinctIndices(r)
    ensures ConnsOf(r) == ConnsOf(a) + [conn]
    ensures r[..|a|] == a
  {
    a + [Entry(NextIndex(a), conn)]
  }

  /** `unset($array[idx])`: drops the element stored under index `idx`, if any. */
  function Unset(a: PhpArray, idx: int): (r: PhpArray)
    ensures forall e :: e in r <==> e in a && e.index != idx
    ensures DistinctIndices(a) ==> DistinctIndices(r)
    ensures (forall i :: 0 <= i < |a| ==> a[i].index != idx) ==> r == a
  {
    if |a| == 0 then []
    else
      var rest := Unset(a[..|a| - 1], idx);
      assert forall e :: e in a <==> e in a[..|a| - 1] || e == a[|a| - 1];
      if a[|a| - 1].index == idx then rest else rest + [a[|a| - 1]]
  }

  /** The shapes a stored value takes. `Blank` is PHP null, which the Redis
      client stores as the empty string; `Str` is any other text. */
  datatype Value = Int(n: int) | Blank | List(a: PhpArray) | Str(s: string)

  type Store = map<Key, Value>

  /** What each key family holds. Only the gateway writes these keys, and every
      write keeps this shape; the startup purge establishes it. */
  predicate Fits(k: Key, v: Value)
  {
    match k
    case Fwd(_) => v.Int? || v.Blank?
    case Rev(_) => v.List? && DistinctIndices(v.a)
    case RevBlank => v.List? && DistinctIndices(v.a)
    case Other(_) => true
  }

  predicate WellTyped(store: Store)
  {
    forall k :: k in store ==> Fits(k, store[k])
  }

  /** No unrelated key shares a name with the chat key families. */
  predicate Canonical(store: Store)
  {
    forall k :: k in store && k.Other? ==>
      !StartsWith(k.name, FwdPrefix) && !StartsWith(k.name, RevPrefix)
  }

  /** PHP's `(int)` of a forward value: the stored number, and 0 for "". */
  function AsInt(v: Value): int
    requires v.Int? || v.Blank?
  {
    if v.Int? then v.n else 0
  }

  /** PHP truthiness of a forward value: "" and "0" are false. */
  predicate Truthy(v: Value)
    requires v.Int? || v.Blank?
  {
    v.Int? && v.n != 0
  }

  /** `ChatServer::isIdentified`: the forward key exists, whatever it holds. */
  predicate IsIdentified(store: Store, conn: int)
  {
    Fwd(conn) in store
  }

  /** `ChatUtil::getNIDforConnId`: the int cast of the forward value; a
      missing key reads as null and casts to 0. */
  function NidForConn(store: Store, conn: int): (nid: int)
    requires WellTyped(store)
    ensures !IsIdentified(store, conn) ==> nid == 0
  {
    if Fwd(conn) in store then AsInt(store[Fwd(conn)]) else 0
  }

  /** `Responder::getMyNeighborId`: the forward value when it is truthy,
      otherwise an exception. */
  function MyNeighborId(store: Store, conn: int): (r: Result<int, Fault>)
    requires WellTyped(store)
    ensures r.Ok? <==> Fwd(conn) in store && store[Fwd(conn)].Int? && store[Fwd(conn)].n != 0
    ensures r.Ok? ==> r.value != 0 && r.value == store[Fwd(conn)].n
    ensures r.Err? ==> r.error == NoNeighborId(conn)
    ensures r.Ok? ==> r.value == NidForConn(store, conn)
    ensures r.Err? ==> NidForConn(store, conn) == 0
  {
    if Fwd(conn) in store && Truthy(store[Fwd(conn)]) then Ok(AsInt(store[Fwd(conn)]))
    else Err(NoNeighborId(conn))
  }

  /** `ChatUtil::getConnectionIdsforNID`: the decoded reverse array, or an
      empty array when the key is absent. */
  function ConnIdsForNid(store: Store, nid: int): (a: PhpArray)
    requires WellTyped(store)
    ensures DistinctIndices(a)
  {
    if Rev(nid) in store then store[Rev(nid)].a else []
  }

  /** Where a neighbour id from a token is written: an integer id, or PHP null. */
  function ForwardValue(nid: Option<int>): Value
  {
    if nid.Some? then Int(nid.value) else Blank
  }

  function ReverseKey(nid: Option<int>): Key
  {
    if nid.Some? then Rev(nid.value) else RevBlank
  }

  /** The reverse array stored under `k`, or the empty array. */
  function ArrayAt(store: Store, k: Key): (a: PhpArray)
    requires WellTyped(store)
    requires k.Rev? || k.RevBlank?
    ensures DistinctIndices(a)
  {
    if k in store then store[k].a else []
  }

  /** The registry writes of a successful identify: the forward key is set
      (overwriting), then the connection id is appended to the reverse array
      of the token's neighbour id. */
  function Register(store: Store, conn: int, nid: Option<int>): (r: Store)
    requires WellTyped(store)
    ensures WellTyped(r)
    ensures Fwd(conn) in r && r[Fwd(conn)] == ForwardValue(nid)
    ensures ReverseKey(nid) in r && r[ReverseKey(nid)].List?
    ensures ConnsOf(r[ReverseKey(nid)].a) == ConnsOf(ArrayAt(store, ReverseKey(nid))) + [conn]
    ensures r[ReverseKey(nid)].a[..|ArrayAt(store, ReverseKey(nid))|] == ArrayAt(store, ReverseKey(nid))
    ensures r.Keys == store.Keys + {Fwd(conn), ReverseKey(nid)}
    ensures forall k :: k in store && k != Fwd(conn) && k != ReverseKey(nid) ==> r[k] == store[k]
  {
    var s1 := store[Fwd(conn) := ForwardValue(nid)];
    var rk := ReverseKey(nid);
    var existing := ArrayAt(store, rk);
    s1[rk := List(Push(existing, conn))]
  }

  /** The registry writes of the disconnect block. The forward key is deleted
      only when its value is not loosely equal to null (so "" survives and
      "0" does not). The reverse key is then built from the CONNECTION id, and
      the element whose INDEX equals the connection id is removed from it. */
  function Unregister(store: Store, conn: int): (r: Store)
    requires WellTyped(store)
    ensures WellTyped(r)
    ensures Fwd(conn) in r <==> Fwd(conn) in store && store[Fwd(conn)] == Blank
    ensures Rev(conn) in r <==> Rev(conn) in store
    ensures Rev(conn) in r ==> forall e :: e in r[Rev(conn)].a <==> e in store[Rev(conn)].a && e.index != conn
    ensures r.Keys <= store.Keys
    ensures forall k :: k in store && k != Fwd(conn) && k != Rev(conn) ==> k in r && r[k] == store[k]
  {
    var s1 := if Fwd(conn) in store && store[Fwd(conn)] != Blank then store - {Fwd(conn)} else store;
    if Rev(conn) in s1 then s1[Rev(conn) := List(Unset(s1[Rev(conn)].a, conn))] else s1
  }

  /** The startup purge: `del(keys('CHAT-CONNID-TO-NID-*'))` and
      `del(keys('CHAT-NID-TO-CONNID-*'))`. */
  function Purge(store: Store): (r: Store)
    ensures r.Keys <= store.Keys
    ensures forall k :: k in r ==> r[k] == store[k]
    ensures forall k :: k in store ==>
      (k in r <==> !StartsWith(KeyName(k), FwdPrefix) && !StartsWith(KeyName(k), RevPrefix))
  {
    map k | k in store && !StartsWith(KeyName(k), FwdPrefix) && !StartsWith(KeyName(k), RevPrefix) :: store[k]
  }
}
