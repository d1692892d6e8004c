/** The durable rows the evaluation runtime reads, keyed by primary key. */
module KnowledgeStore {
  import opened Ordering

  datatype Object = Object(kind: string, key: string, properties: string, created: int)

  datatype Relation = Relation(
    id: string, source: string, target: string, kind: string, qualifier: string,
    lifecycle: string, created: int, superseded: Option<int>)

  datatype Claim = Claim(
    subject: string, predicate_: string, value: string, qualifier: string,
    lifecycle: string, created: int, superseded: Option<int>)

  datatype Link = Link(observation: string, targetKind: string, targetId: string)

  datatype Store = Store(
    objects: map<string, Object>,
    relations: map<string, Relation>,
    claims: map<string, Claim>,
    links: map<string, Link>,
    observations: map<string, string>)  // observation id to source id
  {
    /** A row is stored under its own primary key. */
    ghost predicate Keyed() {
      forall id :: id in relations ==> relations[id].id == id
    }
  }

  /** A row created by revision `at` and not superseded by then. */
  predicate Visible(created: int, superseded: Option<int>, at: int) {
    created <= at && (superseded.Some? ==> at < superseded.value)
  }

  /** `select(RelationModel).where(relation_id.in_(ids))`: the matching rows once each, in some order. */
  method SelectRelations(store: Store, ids: seq<string>) returns (rows: seq<Relation>)
    ensures forall r :: r in rows <==> exists id :: id in ids && id in store.relations && store.relations[id] == r
  {
    rows := [];
    var rest := set id | id in ids && id in store.relations;
    ghost var all := rest;
    while rest != {}
      invariant rest <= all
      invariant forall r :: r in rows <==> exists id :: id in all - rest && store.relations[id] == r
      decreases rest
    {
      var id :| id in rest;
      var before := rows;
      rows := rows + [store.relations[id]];
      ghost var done := all - rest;
      rest := rest - {id};
      assert all - rest == done + {id};
    }
    assert all - rest == all;
  }

  /** `select(ObjectModel).where(object_id.in_(ids))`, as the dictionary the caller builds. */
  function SelectObjects(store: Store, rows: seq<Relation>): map<string, Object> {
    map r, id | r in rows && id in {r.source, r.target} && id in store.objects :: id := store.objects[id]
  }

  /** Exactly the stored ends of the rows, as they are stored. */
  lemma SelectObjectsExact(store: Store, rows: seq<Relation>, id: string, object_: Object)
    ensures id in SelectObjects(store, rows) && SelectObjects(store, rows)[id] == object_ <==>
      id in store.objects && store.objects[id] == object_ && exists r :: r in rows && (r.source == id || r.target == id)
  {
    if r :| r in rows && (r.source == id || r.target == id) && id in store.objects {
      assert id in {r.source, r.target};
    }
  }
}
