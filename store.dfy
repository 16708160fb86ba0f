/**
 * The reading store: the `Mqtt-project` database, one collection of documents per sensor,
 * documents kept in insertion order. `Find` and `Latest` are the two queries the rest of the
 * system issues against it.
 */
module ReadingStore {
  import opened Base
  import opened Text
  import opened Json

  /** Collection name to its documents, oldest first; a missing name is an empty collection. */
  type Store = map<string, seq<Value>>

  function Collection(store: Store, name: string): seq<Value>
  {
    if name in store then store[name] else []
  }

  /** `f'sensor_{sensor_id}'`. */
  function CollectionName(sensorId: string): string
  {
    "sensor_" + sensorId
  }

  class Database {
    var collections: Store

    constructor ()
      ensures collections == map[]
    {
      collections := map[];
    }

    /**
     * `db[name].insert_one(doc)`: the collection is created on first insert. The store refuses the
     * document, raising and changing nothing, when its `_id` is an array or already taken.
     */
    method InsertOne(name: string, doc: Value) returns (inserted: bool)
      modifies this
      ensures inserted <==> !Rejects(Collection(old(collections), name), doc)
      ensures collections == if inserted then old(collections)[name := Collection(old(collections), name) + [doc]]
        else old(collections)
    {
      inserted := !Rejects(Collection(collections, name), doc);
      if inserted {
        collections := collections[name := Collection(collections, name) + [doc]];
      }
    }
  }

  /** Some stored document carries `id` in its `_id` field. */
  predicate IdTaken(docs: seq<Value>, id: Value)
  {
    exists i :: 0 <= i < |docs| && Get(docs[i], "_id") == Some(id)
  }

  /**
   * The unique index on `_id` and the ban on array ids: `insert_one` raises for a document whose
   * `_id` is an array or equals that of a stored document. A document without `_id` gets a fresh
   * ObjectId, which no JSON value equals, so it is never refused.
   */
  predicate Rejects(docs: seq<Value>, doc: Value)
  {
    Get(doc, "_id").Some? && (Get(doc, "_id").value.Arr? || IdTaken(docs, Get(doc, "_id").value))
  }

  /** No two stored documents share an `_id`, and none has an array `_id`. */
  predicate UniqueIds(docs: seq<Value>)
  {
    && (forall i :: 0 <= i < |docs| && Get(docs[i], "_id").Some? ==> !Get(docs[i], "_id").value.Arr?)
    && (forall i, j :: 0 <= i < j < |docs| && Get(docs[i], "_id").Some? ==> Get(docs[j], "_id") != Get(docs[i], "_id"))
  }

  /** Every insert keeps the ids of a collection unique: the store refuses exactly the documents that would clash. */
  lemma InsertKeepsIdsUnique(docs: seq<Value>, doc: Value)
    requires UniqueIds(docs)
    ensures UniqueIds(if Rejects(docs, doc) then docs else docs + [doc])
  {
    if !Rejects(docs, doc) {
      var after := docs + [doc];
      forall i, j | 0 <= i < j < |after| && Get(after[i], "_id").Some?
        ensures Get(after[j], "_id") != Get(after[i], "_id")
      {
        if j == |docs| {
          assert after[i] == docs[i];
          assert Get(docs[i], "_id") != Get(doc, "_id") by {
            if Get(doc, "_id").Some? {
              assert !IdTaken(docs, Get(doc, "_id").value);
            }
          }
        }
      }
    }
  }

  /** The document's `timestamp` field when it holds a string. */
  function Timestamp(doc: Value): Option<string>
  {
    match Get(doc, "timestamp")
    case Some(Str(s)) => Some(s)
    case _ => None
  }

  /** The filter `{'timestamp': {'$gte': lo, '$lte': hi}}` with string bounds. */
  predicate InRange(doc: Value, lo: string, hi: string)
  {
    Timestamp(doc).Some? && LexLe(lo, Timestamp(doc).value) && LexLe(Timestamp(doc).value, hi)
  }

  /**
   * `collection.find(filter)`: the matching documents, each as often as it was stored. They are
   * listed in insertion order, which the store itself does not promise for an unsorted find.
   */
  function Find(docs: seq<Value>, lo: string, hi: string): (r: seq<Value>)
    ensures |r| <= |docs|
    ensures forall i :: 0 <= i < |r| ==> InRange(r[i], lo, hi)
    ensures forall d :: multiset(r)[d] == if InRange(d, lo, hi) then multiset(docs)[d] else 0
  {
    if docs == [] then []
    else
      var init, last := docs[..|docs| - 1], docs[|docs| - 1];
      assert docs == init + [last];
      Find(init, lo, hi) + (if InRange(last, lo, hi) then [last] else [])
  }

  lemma FindAppend(docs: seq<Value>, doc: Value, lo: string, hi: string)
    ensures Find(docs + [doc], lo, hi) == Find(docs, lo, hi) + (if InRange(doc, lo, hi) then [doc] else [])
  {
    assert (docs + [doc])[..|docs|] == docs;
  }

  /** The order `sort=[('timestamp', ...)]` uses: a missing or non-string stamp sorts first. */
  predicate StampLe(a: Option<string>, b: Option<string>)
  {
    a.None? || (b.Some? && LexLe(a.value, b.value))
  }

  /**
   * `collection.find_one(sort=[('timestamp', -1)])`: a document with the greatest stamp, the
   * earliest inserted among equals; `None` for an empty collection.
   */
  function Latest(docs: seq<Value>): (r: Option<Value>)
    ensures r.None? <==> docs == []
    ensures r.Some? ==> r.value in docs
  {
    if docs == [] then None
    else
      var init, last := docs[..|docs| - 1], docs[|docs| - 1];
      var prev := Latest(init);
      if prev.None? || !StampLe(Timestamp(last), Timestamp(prev.value)) then Some(last) else prev
  }

  /** No stored document sorts after the one `Latest` picks. */
  lemma {:induction false} LatestIsMaximal(docs: seq<Value>)
    requires docs != []
    ensures forall d :: d in docs ==> StampLe(Timestamp(d), Timestamp(Latest(docs).value))
  {
    var init, last := docs[..|docs| - 1], docs[|docs| - 1];
    assert docs == init + [last];
    var prev := Latest(init);
    if init != [] {
      LatestIsMaximal(init);
    }
    var top := Latest(docs).value;
    forall d | d in docs
      ensures StampLe(Timestamp(d), Timestamp(top))
    {
      var a, p, l := Timestamp(d), Timestamp(top), Timestamp(last);
      if prev.None? {
        assert d == last;
        if a.Some? { LexLeReflexive(a.value); }
      } else if !StampLe(Timestamp(last), Timestamp(prev.value)) {
        var q := Timestamp(prev.value);
        assert q.Some? ==> l.Some? && LexLe(q.value, l.value) by {
          if q.Some? && l.Some? { LexLeTotal(q.value, l.value); }
        }
        if d == last {
          if a.Some? { LexLeReflexive(a.value); }
        } else {
          assert d in init;
          if a.Some? && q.Some? { LexLeTransitive(a.value, q.value, l.value); }
        }
      } else {
        if d == last {
        } else {
          assert d in init;
        }
      }
    }
  }

  /** A document appended with a stamp above every stored one becomes the latest. */
  lemma LatestAfterNewerAppend(docs: seq<Value>, doc: Value)
    requires Timestamp(doc).Some?
    requires forall d :: d in docs ==> StampLe(Timestamp(d), Timestamp(doc)) && Timestamp(d) != Timestamp(doc)
    ensures Latest(docs + [doc]) == Some(doc)
  {
    var all := docs + [doc];
    assert all[..|all| - 1] == docs;
    var prev := Latest(docs);
    if prev.Some? {
      var p, n := Timestamp(prev.value), Timestamp(doc);
      if StampLe(n, p) {
        assert p.Some? && LexLe(n.value, p.value) && LexLe(p.value, n.value);
        LexLeAntisymmetric(n.value, p.value);
        assert false;
      }
    }
  }
}
