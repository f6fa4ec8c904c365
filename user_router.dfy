/** The session and profile handlers of src/routers/user.js: logout of one
    session, logout of all sessions, and the allow-listed profile patch. */
module UserRouter {
  import opened Json
  import opened Store
  import UserLogic
  import UserModel
  import Logic
  import Populate

  /** The ten fields `PATCH /users/me` may set. */
  const AllowedUpdates: set<string> := {
    "email", "firstName", "lastName", "dateOfBirth", "phoneNumber",
    "address", "profileDescription", "stars", "takenTasks", "badges"
  }

  /** Fields that decide who the user is and what they may do. */
  const Protected: set<string> := {"account", "password", "accountType", "classes", "takenQuizzes", "tokens"}

  /** `updates.every(update => allowedUpdates.includes(update))` */
  predicate PatchAllowed(body: Doc) {
    forall k :: k in body ==> k in AllowedUpdates
  }

  /** No protected field is on the allow-list, so an accepted patch body
      names none of them. */
  lemma AllowedBodyAvoidsProtected(body: Doc)
    requires PatchAllowed(body)
    ensures forall k :: k in Protected ==> k !in body
  {
    forall k | k in Protected
      ensures k !in body
    {
      assert k !in AllowedUpdates;
    }
  }

  /** The user's session tokens. */
  function Tokens(user: Doc): seq<Json> {
    Items(Get(user, "tokens"))
  }

  /** `POST /users/logout`: the sessions holding the current token end, the
      rest are kept in order, and no other field of the user changes. */
  method Logout(db: Db, u: Oid, token: string) returns (r: Reply<()>)
    requires u in db.users
    modifies db`users
    ensures r.Ok?
    ensures db.users.Keys == old(db.users).Keys
    ensures forall v :: v in db.users && v != u ==> db.users[v] == old(db.users[v])
    ensures Tokens(db.users[u]) == UserLogic.RemoveCurrentToken(Tokens(old(db.users[u])), token)
    ensures forall e :: e in Tokens(db.users[u]) <==>
              e in Tokens(old(db.users[u])) && UserLogic.TokenOf(e) != Str(token)
    ensures forall k :: k != "tokens" ==> Get(db.users[u], k) == Get(old(db.users[u]), k)
  {
    var user := db.users[u];
    var kept := UserLogic.RemoveCurrentToken(Tokens(user), token);
    db.users := db.users[u := user["tokens" := Arr(kept)]];
    r := Ok(());
  }

  /** `POST /users/logoutall`: every session ends; nothing else changes. */
  method LogoutAll(db: Db, u: Oid) returns (r: Reply<()>)
    requires u in db.users
    modifies db`users
    ensures r.Ok?
    ensures db.users.Keys == old(db.users).Keys
    ensures forall v :: v in db.users && v != u ==> db.users[v] == old(db.users[v])
    ensures Tokens(db.users[u]) == []
    ensures forall k :: k != "tokens" ==> Get(db.users[u], k) == Get(old(db.users[u]), k)
  {
    db.users := db.users[u := db.users[u]["tokens" := Arr([])]];
    r := Ok(());
  }

  /** `PATCH /users/me`: a body naming any field off the allow-list is
      refused and nothing changes; otherwise every named field the user
      schema declares takes its new value (`takenTasks`, allowed but not
      declared, is dropped by strict mode), every other field is kept, and no
      protected field can change. */
  method PatchMe(db: Db, u: Oid, body: Doc) returns (r: Reply<()>)
    requires u in db.users
    modifies db`users
    ensures r.Ok? || r.Rejected?
    ensures r.Rejected? <==> !PatchAllowed(body)
    ensures r.Rejected? ==> unchanged(db)
    ensures r.Ok? ==> db.users == old(db.users)[u := old(db.users[u]) + Populate.Project(body, UserModel.Paths)]
    ensures r.Ok? ==> forall k :: k in body && k in UserModel.Paths ==> Get(db.users[u], k) == body[k]
    ensures r.Ok? ==> forall k :: k in Protected || k !in body || k !in UserModel.Paths ==>
                                    Get(db.users[u], k) == Get(old(db.users[u]), k)
  {
    if exists k :: k in body && k !in AllowedUpdates {
      return Rejected;
    }
    AllowedBodyAvoidsProtected(body);
    var user := Logic.Assign(db.users[u], body, UserModel.Paths);
    db.users := db.users[u := user];
    r := Ok(());
  }

  /** `takenTasks` is on the allow-list but not in the user schema, so a
      patch of it is accepted and changes nothing. */
  lemma TakenTasksIsDropped(user: Doc, v: Json)
    ensures PatchAllowed(map["takenTasks" := v])
    ensures user + Populate.Project(map["takenTasks" := v], UserModel.Paths) == user
  {
    assert Populate.Project(map["takenTasks" := v], UserModel.Paths) == map[];
  }
}
