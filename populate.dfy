/** Mongoose `populate`, on the in-memory store: a reference is replaced by
    the referenced document together with its `_id`.  In an array a reference
    to a missing document is dropped; in a single path it becomes `null`. */
module Populate {
  import opened Json

  /** The referenced document as populate delivers it. */
  function Resolved(m: map<Oid, Doc>, id: Oid): Json
    requires id in m
  {
    Obj(m[id]["_id" := Ref(id)])
  }

  /** Populating an array of references: the documents that exist, in order. */
  function PopulateRefs(xs: seq<Json>, m: map<Oid, Doc>): (r: seq<Json>)
    ensures |r| <= |xs|
  {
    if xs == [] then []
    else
      var rest := PopulateRefs(xs[1..], m);
      if xs[0].Ref? && xs[0].id in m then [Resolved(m, xs[0].id)] + rest else rest
  }

  /** What populating an array holds: only referenced documents that exist,
      and every one of them. */
  lemma {:induction false} PopulateRefsSpec(xs: seq<Json>, m: map<Oid, Doc>)
    ensures forall y :: y in PopulateRefs(xs, m) ==> exists id :: id in m && Ref(id) in xs && y == Resolved(m, id)
    ensures forall id :: id in m && Ref(id) in xs ==> Resolved(m, id) in PopulateRefs(xs, m)
    decreases |xs|
  {
    if xs != [] {
      PopulateRefsSpec(xs[1..], m);
      assert forall y :: y in xs[1..] ==> y in xs;
      assert forall y :: y in xs ==> y == xs[0] || y in xs[1..];
    }
  }

  /** Populating a single reference path: the document, or `null` when it is
      missing; a value that is not a reference is left as it is. */
  function PopulateOne(x: Json, m: map<Oid, Doc>): (r: Json)
    ensures x.Ref? && x.id in m ==> r == Resolved(m, x.id)
    ensures x.Ref? && x.id !in m ==> r == Null
    ensures !x.Ref? ==> r == x
  {
    if x.Ref? then (if x.id in m then Resolved(m, x.id) else Null) else x
  }

  /** A document cut down to the selected paths (`select: '...'`). */
  function Project(d: Doc, keep: set<string>): (r: Doc)
    ensures forall k :: k in r <==> k in d && k in keep
    ensures forall k :: k in r ==> r[k] == d[k]
  {
    map k | k in d && k in keep :: d[k]
  }

  /** Setting a kept key before or after the projection is the same. */
  lemma ProjectUpdate(d: Doc, k: string, v: Json, keep: set<string>)
    requires k in keep
    ensures Project(d[k := v], keep) == Project(d, keep)[k := v]
  {
  }

  /** A collection seen through a `select`. */
  function ProjectAll(m: map<Oid, Doc>, keep: set<string>): (r: map<Oid, Doc>)
    ensures r.Keys == m.Keys
    ensures forall id :: id in r ==> r[id] == Project(m[id], keep)
  {
    map id | id in m :: Project(m[id], keep)
  }
}
