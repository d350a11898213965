/**
 * The chat-history store: one IndexedDB object store `chats`, keyed by `id`,
 * with a unique index on `urlId`. The table is a finite map from keys to
 * records; the class `ChatDatabase` holds it and changes it in place.
 */
module ChatDb {
  import opened Wrappers
  import opened Decimal
  import opened KeyOrder

  /** One record of the `chats` store. The messages are opaque values of type `M`. */
  datatype ChatHistoryItem<M> = ChatHistoryItem(
    id: string,
    messages: seq<M>,
    urlId: Option<string>,
    description: Option<string>,
    timestamp: string)

  type Table<M> = map<string, ChatHistoryItem<M>>

  /** The key path is `id`: every record is stored under its own id. */
  ghost predicate KeyPathHolds<M>(t: Table<M>) {
    forall k :: k in t ==> t[k].id == k
  }

  /** The unique `urlId` index: no two records share a present urlId. */
  ghost predicate UrlIdsUnique<M>(t: Table<M>) {
    forall k, k' :: k in t && k' in t && k != k' && t[k].urlId.Some? ==> t[k].urlId != t[k'].urlId
  }

  /** The schema of the `chats` store. */
  ghost predicate WellFormed<M>(t: Table<M>) {
    KeyPathHolds(t) && UrlIdsUnique(t)
  }

  predicate UrlIdTaken<M>(t: Table<M>, u: string) {
    exists k :: k in t && t[k].urlId == Some(u)
  }

  /** Writing a record with `urlId` under key `id` would break the unique index. */
  predicate PutConflicts<M>(t: Table<M>, id: string, urlId: Option<string>) {
    urlId.Some? && exists k :: k in t && k != id && t[k].urlId == urlId
  }

  // ---------------------------------------------------------------- lookups

  /** `getMessagesById`: `store.get(id)`. */
  function GetMessagesById<M>(t: Table<M>, id: string): (r: Option<ChatHistoryItem<M>>)
    ensures r.Some? <==> id in t
    ensures r.Some? ==> r.value == t[id]
  {
    if id in t then Some(t[id]) else None
  }

  /** `getMessagesByUrlId`: `index('urlId').get(urlId)`, the one record holding `urlId`. */
  function GetMessagesByUrlId<M>(t: Table<M>, urlId: string): (r: Option<ChatHistoryItem<M>>)
    requires UrlIdsUnique(t)
    ensures r.None? <==> !UrlIdTaken(t, urlId)
    ensures forall k :: k in t && t[k].urlId == Some(urlId) ==> r == Some(t[k])
  {
    if UrlIdTaken(t, urlId) then
      var k :| k in t && t[k].urlId == Some(urlId);
      Some(t[k])
    else
      None
  }

  /** `getMessages`: the record keyed `x`, or else the record whose urlId is `x`. */
  function GetMessages<M>(t: Table<M>, x: string): (r: Option<ChatHistoryItem<M>>)
    requires UrlIdsUnique(t)
    ensures x in t ==> r == Some(t[x])
    ensures x !in t ==> r == GetMessagesByUrlId(t, x)
  {
    GetMessagesById(t, x).OrElse(GetMessagesByUrlId(t, x))
  }

  /** `getMessages` resolves `x` to `rec` exactly when `rec` is keyed `x`, or no key is `x` and `rec` holds urlId `x`. */
  lemma GetMessagesResolves<M>(t: Table<M>, x: string, rec: ChatHistoryItem<M>)
    requires WellFormed(t)
    ensures GetMessages(t, x) == Some(rec) <==>
              (x in t && t[x] == rec) || (x !in t && rec in t.Values && rec.urlId == Some(x))
  {
    if x !in t && rec in t.Values && rec.urlId == Some(x) {
      var k :| k in t && t[k] == rec;
      assert GetMessagesByUrlId(t, x) == Some(t[k]);
    }
  }

  /** A record is found by its id, and by its urlId unless some record is keyed by that urlId. */
  lemma RecordReachableByBothIds<M>(t: Table<M>, k: string)
    requires WellFormed(t) && k in t
    ensures GetMessages(t, k) == Some(t[k])
    ensures t[k].urlId.Some? && t[k].urlId.value !in t ==> GetMessages(t, t[k].urlId.value) == Some(t[k])
  {
    GetMessagesResolves(t, k, t[k]);
    if t[k].urlId.Some? && t[k].urlId.value !in t {
      GetMessagesResolves(t, t[k].urlId.value, t[k]);
    }
  }

  /** The primary key wins: a urlId that is also some record's key resolves to that record. */
  lemma UrlIdShadowedByKey<M>(t: Table<M>, k: string, u: string)
    requires WellFormed(t) && k in t && u in t && k != u && t[k].urlId == Some(u)
    ensures GetMessages(t, u) == Some(t[u]) && GetMessages(t, u) != Some(t[k])
  {
  }

  // --------------------------------------------------------------- scanning

  /** `getAll`: the records of the store, each under its own key, no key twice. */
  function GetAll<M>(t: Table<M>): (r: seq<ChatHistoryItem<M>>)
    requires KeyPathHolds(t)
    ensures |r| == |t|
    ensures forall i :: 0 <= i < |r| ==> r[i].id in t && t[r[i].id] == r[i]
    ensures forall i, j :: 0 <= i < j < |r| ==> r[i].id != r[j].id
  {
    var keys := SortedKeys(t.Keys);
    assert forall i :: 0 <= i < |keys| ==> keys[i] in t.Keys;
    seq(|keys|, i requires 0 <= i < |keys| => t[keys[i]])
  }

  /** `getAll` misses no record: every key of the store is the id of some listed record. */
  lemma GetAllCoversTable<M>(t: Table<M>, k: string)
    requires KeyPathHolds(t) && k in t
    ensures exists i :: 0 <= i < |GetAll(t)| && GetAll(t)[i].id == k
  {
    var keys := SortedKeys(t.Keys);
    var i :| 0 <= i < |keys| && keys[i] == k;
    assert GetAll(t)[i].id == k;
  }

  /** `getAll` lists the records in ascending order of their keys. */
  lemma GetAllAscending<M>(t: Table<M>)
    requires KeyPathHolds(t)
    ensures forall i, j :: 0 <= i < j < |GetAll(t)| ==> KeyLe(GetAll(t)[i].id, GetAll(t)[j].id)
  {
    var keys := SortedKeys(t.Keys);
    SortedKeysAscending(t.Keys);
    assert forall i :: 0 <= i < |keys| ==> GetAll(t)[i].id == keys[i];
    assert forall i, j :: 0 <= i < j < |keys| ==> KeyLe(keys[i], keys[j]);
  }

  /** What the `getUrlIds` cursor collects: each record's urlId, possibly absent, in `getAll` order. */
  function UrlIdList<M>(t: Table<M>): (l: seq<Option<string>>)
    requires KeyPathHolds(t)
    ensures |l| == |t|
    ensures forall i :: 0 <= i < |l| ==> l[i] == GetAll(t)[i].urlId
  {
    var all := GetAll(t);
    seq(|all|, i requires 0 <= i < |all| => all[i].urlId)
  }

  /** A urlId is in the collected list exactly when some record holds it. */
  lemma UrlIdListCoversTable<M>(t: Table<M>)
    requires KeyPathHolds(t)
    ensures forall u :: Some(u) in UrlIdList(t) <==> UrlIdTaken(t, u)
  {
    var all, l := GetAll(t), UrlIdList(t);
    forall u ensures Some(u) in l <==> UrlIdTaken(t, u) {
      if UrlIdTaken(t, u) {
        var k :| k in t && t[k].urlId == Some(u);
        GetAllCoversTable(t, k);
        var i :| 0 <= i < |all| && all[i].id == k;
        assert l[i] == Some(u);
      }
      if Some(u) in l {
        var i :| 0 <= i < |l| && l[i] == Some(u);
        assert all[i].id in t && t[all[i].id].urlId == Some(u);
      }
    }
  }

  // ---------------------------------------------------------- id allocation

  /** `reduce((acc, key) => Math.max(+acc, +key), acc)` over `keys`, left to right. */
  function MaxKey(acc: JsNumber, keys: seq<string>): JsNumber
    decreases |keys|
  {
    if keys == [] then acc else MaxKey(JsMax(acc, ToNumber(keys[0])), keys[1..])
  }

  /**
   * `getNextId`: `String(+highestId + 1)` over `getAllKeys()`, starting from 0;
   * nothing when a key converts to a number the model does not compute.
   */
  function GetNextId<M>(t: Table<M>): Option<string> {
    SuccessorString(MaxKey(Finite(0), SortedKeys(t.Keys)))
  }

  lemma {:induction false} MaxKeyOfDecimals(acc: nat, keys: seq<string>)
    requires forall i :: 0 <= i < |keys| ==> AllDigits(keys[i])
    ensures MaxKey(Finite(acc), keys).Finite?
    ensures MaxKey(Finite(acc), keys).value >= acc
    ensures forall i :: 0 <= i < |keys| ==> MaxKey(Finite(acc), keys).value >= DigitsValue(keys[i])
    ensures MaxKey(Finite(acc), keys).value == acc ||
            exists i :: 0 <= i < |keys| && MaxKey(Finite(acc), keys).value == DigitsValue(keys[i])
    decreases |keys|
  {
    if keys != [] {
      var next := JsMax(Finite(acc), ToNumber(keys[0]));
      MaxKeyOfDecimals(next.value, keys[1..]);
      var m := MaxKey(Finite(acc), keys).value;
      assert forall i :: 1 <= i < |keys| ==> keys[i] == keys[1..][i - 1];
      if m != acc && m != next.value {
        var i :| 0 <= i < |keys[1..]| && m == DigitsValue(keys[1..][i]);
        assert m == DigitsValue(keys[i + 1]);
      }
    }
  }

  lemma {:induction false} MaxKeyOfNotNumeric(acc: JsNumber, keys: seq<string>, k: nat)
    requires k < |keys| && NotNumeric(keys[k])
    ensures MaxKey(acc, keys) == NaN
    decreases |keys|
  {
    if k == 0 {
      MaxKeyFromNaN(keys[1..]);
    } else {
      MaxKeyOfNotNumeric(JsMax(acc, ToNumber(keys[0])), keys[1..], k - 1);
    }
  }

  lemma {:induction false} MaxKeyFromNaN(keys: seq<string>)
    ensures MaxKey(NaN, keys) == NaN
    decreases |keys|
  {
    if keys != [] { MaxKeyFromNaN(keys[1..]); }
  }

  /** Among decimal keys, one "Infinity" makes the fold infinity. */
  lemma {:induction false} MaxKeyReachesInfinity(acc: JsNumber, keys: seq<string>)
    requires acc.Finite? || acc.Infinity?
    requires forall i :: 0 <= i < |keys| ==> AllDigits(keys[i]) || IsInfinityLiteral(keys[i])
    requires acc.Infinity? || exists i :: 0 <= i < |keys| && IsInfinityLiteral(keys[i])
    ensures MaxKey(acc, keys) == Infinity
    decreases |keys|
  {
    if keys != [] {
      var next := JsMax(acc, ToNumber(keys[0]));
      assert forall i :: 1 <= i < |keys| ==> keys[1..][i - 1] == keys[i];
      if !next.Infinity? {
        var i :| 0 <= i < |keys| && IsInfinityLiteral(keys[i]);
        assert IsInfinityLiteral(keys[1..][i - 1]);
      }
      MaxKeyReachesInfinity(next, keys[1..]);
    }
  }

  /** With decimal keys the fold is a number: the largest key value, or 0. */
  lemma HighestKey<M>(t: Table<M>)
    requires forall k :: k in t ==> AllDigits(k)
    ensures MaxKey(Finite(0), SortedKeys(t.Keys)).Finite?
    ensures forall k :: k in t ==> DigitsValue(k) <= MaxKey(Finite(0), SortedKeys(t.Keys)).value
    ensures var h := MaxKey(Finite(0), SortedKeys(t.Keys)).value;
            h == 0 || exists k :: k in t && DigitsValue(k) == h
  {
    var keys := SortedKeys(t.Keys);
    assert forall i :: 0 <= i < |keys| ==> keys[i] in t;
    MaxKeyOfDecimals(0, keys);
    HighestKeyBounds(t, keys, MaxKey(Finite(0), keys).value);
  }

  lemma HighestKeyBounds<M>(t: Table<M>, keys: seq<string>, h: nat)
    requires forall k :: k in t <==> k in keys
    requires forall i :: 0 <= i < |keys| ==> AllDigits(keys[i]) && DigitsValue(keys[i]) <= h
    requires h == 0 || exists i :: 0 <= i < |keys| && h == DigitsValue(keys[i])
    ensures forall k :: k in t ==> AllDigits(k) && DigitsValue(k) <= h
    ensures h == 0 || exists k :: k in t && DigitsValue(k) == h
  {
    forall k | k in t ensures AllDigits(k) && DigitsValue(k) <= h {
      var i :| 0 <= i < |keys| && keys[i] == k;
    }
    if h != 0 {
      var i :| 0 <= i < |keys| && h == DigitsValue(keys[i]);
      assert keys[i] in t;
    }
  }

  /** With decimal keys, `getNextId` is the decimal string of (largest key value, or 0) + 1. */
  lemma GetNextIdIsMaxPlusOne<M>(t: Table<M>, m: nat)
    requires forall k :: k in t ==> AllDigits(k)
    requires forall k :: k in t ==> DigitsValue(k) <= m
    requires m == 0 || exists k :: k in t && DigitsValue(k) == m
    ensures GetNextId(t) == Some(NatToString(m + 1))
  {
    assert MaxKey(Finite(0), SortedKeys(t.Keys)) == Finite(m) by {
      HighestKey(t);
    }
    GetNextIdFromHighest(t, m);
  }

  lemma GetNextIdFromHighest<M>(t: Table<M>, m: nat)
    requires MaxKey(Finite(0), SortedKeys(t.Keys)) == Finite(m)
    ensures GetNextId(t) == Some(NatToString(m + 1))
  {
  }

  /** With decimal keys, `getNextId` returns a key that is not in use. */
  lemma GetNextIdFresh<M>(t: Table<M>)
    requires forall k :: k in t ==> AllDigits(k)
    ensures GetNextId(t).Some? && GetNextId(t).value !in t
  {
    HighestKey(t);
    var h := MaxKey(Finite(0), SortedKeys(t.Keys)).value;
    assert GetNextId(t) == Some(NatToString(h + 1));
    DigitsValueOfNatToString(h + 1);
  }

  /** On an empty store `getNextId` is "1". */
  lemma GetNextIdOfEmpty<M>(t: Table<M>)
    requires t == map[]
    ensures GetNextId(t) == Some("1")
  {
    assert SortedKeys(t.Keys) == [];
  }

  /** With keys "1", "2" and "5", `getNextId` is "6". */
  lemma GetNextIdExample<M>(t: Table<M>)
    requires t.Keys == {"1", "2", "5"}
    ensures GetNextId(t) == Some("6")
  {
    forall k | k in t ensures AllDigits(k) && DigitsValue(k) <= 5 {
      assert k == "1" || k == "2" || k == "5";
    }
    assert "5" in t && DigitsValue("5") == 5;
    GetNextIdIsMaxPlusOne(t, 5);
  }

  /**
   * One key JavaScript reads as NaN (such as "NaN" or "abc") turns every later
   * `getNextId` into "NaN", which is a key in use once a chat is stored under it.
   */
  lemma GetNextIdNaN<M>(t: Table<M>, k: string)
    requires k in t && NotNumeric(k)
    ensures GetNextId(t) == Some("NaN")
    ensures "NaN" in t ==> GetNextId(t).value in t
  {
    var keys := SortedKeys(t.Keys);
    var i :| 0 <= i < |keys| && keys[i] == k;
    MaxKeyOfNotNumeric(Finite(0), keys, i);
  }

  /** A key "Infinity" among decimal keys makes `getNextId` return "Infinity", a key already in use. */
  lemma GetNextIdInfinity<M>(t: Table<M>)
    requires "Infinity" in t
    requires forall k :: k in t ==> AllDigits(k) || IsInfinityLiteral(k)
    ensures GetNextId(t) == Some("Infinity")
    ensures GetNextId(t).value in t
  {
    var keys := SortedKeys(t.Keys);
    assert forall i :: 0 <= i < |keys| ==> keys[i] in t;
    var i :| 0 <= i < |keys| && keys[i] == "Infinity";
    MaxKeyReachesInfinity(Finite(0), keys);
  }

  /** The i-th probe of `getUrlId`: `${candidate}-${i}`. */
  function Suffixed(candidate: string, i: nat): string {
    candidate + "-" + NatToString(i)
  }

  /**
   * `r` is what `getUrlId(candidate)` allocates on table `t`: the candidate
   * itself if unused, otherwise `candidate-i` for the least i >= 2 that is unused.
   */
  ghost predicate IsAllocatedUrlId<M>(t: Table<M>, candidate: string, r: string) {
    if !UrlIdTaken(t, candidate) then r == candidate
    else exists i: nat :: i >= 2 && r == Suffixed(candidate, i) && !UrlIdTaken(t, r) &&
                          forall j :: 2 <= j < i ==> UrlIdTaken(t, Suffixed(candidate, j))
  }

  /** At most one value satisfies the allocation rule, so repeated calls on an unchanged table agree. */
  lemma UrlIdAllocationDeterministic<M>(t: Table<M>, candidate: string, r1: string, r2: string)
    requires IsAllocatedUrlId(t, candidate, r1) && IsAllocatedUrlId(t, candidate, r2)
    ensures r1 == r2
  {
    if UrlIdTaken(t, candidate) {
      var i1: nat :| i1 >= 2 && r1 == Suffixed(candidate, i1) && !UrlIdTaken(t, r1) &&
                     forall j :: 2 <= j < i1 ==> UrlIdTaken(t, Suffixed(candidate, j));
      var i2: nat :| i2 >= 2 && r2 == Suffixed(candidate, i2) && !UrlIdTaken(t, r2) &&
                     forall j :: 2 <= j < i2 ==> UrlIdTaken(t, Suffixed(candidate, j));
      assert i1 < i2 ==> UrlIdTaken(t, Suffixed(candidate, i1));
      assert i2 < i1 ==> UrlIdTaken(t, Suffixed(candidate, i2));
    }
  }

  /** With urlIds "foo" and "foo-2" in use, the allocation for "foo" is "foo-3". */
  lemma UrlIdAllocationExample<M>(t: Table<M>, r: string)
    requires forall k :: k in t ==> t[k].urlId in {Some("foo"), Some("foo-2")}
    requires exists k :: k in t && t[k].urlId == Some("foo")
    requires exists k :: k in t && t[k].urlId == Some("foo-2")
    requires IsAllocatedUrlId(t, "foo", r)
    ensures r == "foo-3"
  {
    assert Suffixed("foo", 2) == "foo-2" && Suffixed("foo", 3) == "foo-3";
    assert UrlIdTaken(t, "foo") && UrlIdTaken(t, "foo-2") && !UrlIdTaken(t, "foo-3");
    assert forall j :: 2 <= j < 3 ==> UrlIdTaken(t, Suffixed("foo", j));
    assert IsAllocatedUrlId(t, "foo", "foo-3");
    UrlIdAllocationDeterministic(t, "foo", r, "foo-3");
  }

  /** The length of the longest present entry of `l`. */
  function MaxLength(l: seq<Option<string>>): (n: nat)
    ensures forall i :: 0 <= i < |l| && l[i].Some? ==> |l[i].value| <= n
  {
    if l == [] then 0
    else
      var n := MaxLength(l[1..]);
      assert forall i :: 1 <= i < |l| ==> l[i] == l[1..][i - 1];
      if l[0].Some? && |l[0].value| > n then |l[0].value| else n
  }

  /** Probes from 10^MaxLength on are longer than every entry, so the probing loop stops below that bound. */
  lemma ProbeBelowBound(l: seq<Option<string>>, candidate: string, i: nat)
    requires Some(Suffixed(candidate, i)) in l
    ensures i < Pow10(MaxLength(l))
  {
    var j :| 0 <= j < |l| && l[j] == Some(Suffixed(candidate, i));
    assert |NatToString(i)| < |Suffixed(candidate, i)| <= MaxLength(l);
    NatToStringLength(i, MaxLength(l));
  }

  /** The probing loop of `getUrlId`: counts up from 2 to the first suffix whose probe is not in `idList`. */
  method ProbeSuffixes(idList: seq<Option<string>>, candidate: string) returns (i: nat)
    ensures i >= 2
    ensures Some(Suffixed(candidate, i)) !in idList
    ensures forall j :: 2 <= j < i ==> Some(Suffixed(candidate, j)) in idList
  {
    i := 2;
    while Some(Suffixed(candidate, i)) in idList
      invariant i >= 2
      invariant forall j :: 2 <= j < i ==> Some(Suffixed(candidate, j)) in idList
      decreases Pow10(MaxLength(idList)) - i
    {
      ProbeBelowBound(idList, candidate, i);
      i := i + 1;
    }
  }

  /** The first probe missing from the collected list is the allocation the rule asks for. */
  lemma ProbingAllocates<M>(t: Table<M>, candidate: string, i: nat)
    requires KeyPathHolds(t) && i >= 2
    requires Some(candidate) in UrlIdList(t)
    requires forall j :: 2 <= j < i ==> Some(Suffixed(candidate, j)) in UrlIdList(t)
    requires Some(Suffixed(candidate, i)) !in UrlIdList(t)
    ensures !UrlIdTaken(t, Suffixed(candidate, i))
    ensures IsAllocatedUrlId(t, candidate, Suffixed(candidate, i))
  {
    UrlIdListCoversTable(t);
  }

  // ----------------------------------------------------------------- store

  class ChatDatabase<M> {
    /** The `chats` object store. */
    var chats: Table<M>

    ghost predicate Valid()
      reads this
    {
      WellFormed(chats)
    }

    /** `openDatabase` on first use: the upgrade handler creates the empty `chats` store. */
    constructor ()
      ensures Valid() && chats == map[]
    {
      chats := map[];
    }

    /**
     * `setMessages`: `store.put` of the whole record under `id`. It fails, and
     * changes nothing, when another record already holds `urlId`.
     */
    method SetMessages(id: string, messages: seq<M>, urlId: Option<string>,
                       description: Option<string>, timestamp: string)
      returns (ok: bool)
      requires Valid()
      modifies this
      ensures Valid()
      ensures ok <==> !PutConflicts(old(chats), id, urlId)
      ensures ok ==> chats == old(chats)[id := ChatHistoryItem(id, messages, urlId, description, timestamp)]
      ensures !ok ==> chats == old(chats)
      ensures forall k :: k in old(chats) && k != id ==> k in chats && chats[k] == old(chats)[k]
    {
      ok := !PutConflicts(chats, id, urlId);
      if ok {
        chats := chats[id := ChatHistoryItem(id, messages, urlId, description, timestamp)];
      }
    }

    /** `deleteById`: `store.delete(id)`; deleting an absent key changes nothing. */
    method DeleteById(id: string)
      requires Valid()
      modifies this
      ensures Valid()
      ensures chats == old(chats) - {id}
      ensures id !in old(chats) ==> chats == old(chats)
      ensures forall k :: k in old(chats) && k != id ==> k in chats && chats[k] == old(chats)[k]
    {
      chats := chats - {id};
    }

    /** `getUrlIds`: a cursor over the store, pushing each record's urlId. */
    method GetUrlIds() returns (idList: seq<Option<string>>)
      requires Valid()
      ensures idList == UrlIdList(chats)
    {
      var records := GetAll(chats);
      idList := [];
      var i := 0;
      while i < |records|
        invariant 0 <= i <= |records|
        invariant |idList| == i
        invariant forall j :: 0 <= j < i ==> idList[j] == records[j].urlId
      {
        idList := idList + [records[i].urlId];
        i := i + 1;
      }
      assert forall j :: 0 <= j < |idList| ==> idList[j] == UrlIdList(chats)[j];
    }

    /** `getUrlId`: the candidate if no record uses it, else the first free `candidate-2`, `candidate-3`, ... */
    method GetUrlId(candidate: string) returns (r: string)
      requires Valid()
      ensures !UrlIdTaken(chats, r)
      ensures IsAllocatedUrlId(chats, candidate, r)
    {
      var idList := GetUrlIds();
      if Some(candidate) !in idList {
        UrlIdListCoversTable(chats);
        return candidate;
      }
      var i := ProbeSuffixes(idList, candidate);
      r := Suffixed(candidate, i);
      ProbingAllocates(chats, candidate, i);
    }
  }

  /** A new conversation: allocate both ids, store the first message, and load it back by its urlId. */
  method NewConversation<M>(first: M, timestamp: string) returns (db: ChatDatabase<M>, id: string, urlId: string)
    ensures db.Valid() && db.chats.Keys == {id}
    ensures GetMessages(db.chats, urlId) == Some(ChatHistoryItem(id, [first], Some(urlId), None, timestamp))
  {
    db := new ChatDatabase();
    GetNextIdOfEmpty(db.chats);
    id := GetNextId(db.chats).value;
    urlId := db.GetUrlId("hello");
    assert urlId == "hello";
    var ok := db.SetMessages(id, [first], Some(urlId), None, timestamp);
    assert ok;
    RecordReachableByBothIds(db.chats, id);
  }
}
