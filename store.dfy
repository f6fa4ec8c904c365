/** The in-memory stand-in for the mongoose collections the core reads and
    writes.  Each collection maps an ObjectId to the stored document. */
module Store {
  import opened Json

  class Db {
    var users: map<Oid, Doc>
    var classes: map<Oid, Doc>
    var picQuizzes: map<Oid, Doc>
    var quizzes: map<Oid, Doc>
    var scribblies: map<Oid, Doc>
    var scribblyWorks: map<Oid, Doc>
    var picQuizWorks: map<Oid, Doc>
    var quizWorks: map<Oid, Doc>
    var fillInBlanks: map<Oid, Doc>
    var multipleChoices: map<Oid, Doc>
    var guessPics: map<Oid, Doc>

    constructor ()
      ensures users == classes == picQuizzes == quizzes == scribblies == map[]
      ensures scribblyWorks == picQuizWorks == quizWorks == map[]
      ensures fillInBlanks == multipleChoices == guessPics == map[]
    {
      users, classes, picQuizzes, quizzes, scribblies := map[], map[], map[], map[], map[];
      scribblyWorks, picQuizWorks, quizWorks := map[], map[], map[];
      fillInBlanks, multipleChoices, guessPics := map[], map[], map[];
    }
  }

  /** Some document of `m` has `field` equal to `v`. */
  predicate HasMatch(m: map<Oid, Doc>, field: string, v: Json) {
    exists k :: k in m && Get(m[k], field) == v
  }

  /** A unique index on `field`: no two documents of `m` agree on it. */
  ghost predicate UniqueOn(m: map<Oid, Doc>, field: string) {
    forall a, b :: a in m && b in m && Get(m[a], field) == Get(m[b], field) ==> a == b
  }

  /** The unique index admits an insert exactly when no stored document has
      the new document's value, and such an insert keeps the index unique. */
  lemma InsertKeepsUnique(m: map<Oid, Doc>, field: string, id: Oid, d: Doc)
    requires UniqueOn(m, field) && id !in m && !HasMatch(m, field, Get(d, field))
    ensures UniqueOn(m[id := d], field)
  {
  }

  /** `Model.findOne({ field: v })`: some matching document, or none when no
      document matches.  Which of several matches is returned is not fixed. */
  method FindOne(m: map<Oid, Doc>, field: string, v: Json) returns (r: Option<Oid>)
    ensures r.Some? ==> r.value in m && Get(m[r.value], field) == v
    ensures r.None? <==> !HasMatch(m, field, v)
  {
    if exists k :: k in m && Get(m[k], field) == v {
      var k :| k in m && Get(m[k], field) == v;
      r := Some(k);
    } else {
      r := None;
    }
  }

  /** A new ObjectId, distinct from every id of `m`. */
  method FreshId(m: map<Oid, Doc>) returns (id: Oid)
    ensures id !in m
  {
    var rest := m.Keys;
    id := 0;
    while rest != {}
      invariant rest <= m.Keys
      invariant forall x :: x in m.Keys && x !in rest ==> x < id
      decreases rest
    {
      var x :| x in rest;
      if x >= id {
        id := x + 1;
      }
      rest := rest - {x};
    }
  }
}
