/** The User document (src/models/user.js): its defaults, the `takenQuizzes`
    tag enum, the `toJSON` projection, token issue, credential lookup and the
    pre-save password rule.  Hashing, comparison and signing are parameters. */
module UserModel {
  import opened Json
  import opened Store
  import Populate

  /** The schema defaults of a new user. */
  const UserDefaults: Doc := map[
    "accountType" := Str("student"),
    "profileDescription" := Str("Hello world! :D"),
    "stars" := Num(0),
    "goldenCrown" := Num(0),
    "silverCrown" := Num(0),
    "bronzeCrown" := Num(0),
    "classes" := Arr([]),
    "takenQuizzes" := Arr([]),
    "badges" := Arr([]),
    "tokens" := Arr([])
  ]

  /** The paths the user schema declares; strict mode drops every other key. */
  const Paths: set<string> := {
    "account", "accountType", "email", "classes", "firstName", "lastName", "dateOfBirth",
    "phoneNumber", "address", "avatar", "coverPhoto", "profileDescription", "password",
    "stars", "goldenCrown", "silverCrown", "bronzeCrown", "takenQuizzes", "badges", "tokens"
  }

  /** `new User(data)`: every declared field as given, the defaults elsewhere,
      and no undeclared field. */
  function NewUser(data: Doc): (r: Doc)
    ensures forall k :: k in data && k in Paths ==> Get(r, k) == data[k]
    ensures forall k :: k !in Paths ==> k !in r
    ensures "accountType" !in data ==> Get(r, "accountType") == Str("student")
    ensures "stars" !in data ==> Get(r, "stars") == Num(0)
    ensures "takenQuizzes" !in data ==> Items(Get(r, "takenQuizzes")) == []
  {
    UserDefaults + Populate.Project(data, Paths)
  }

  /** The gate of src/middleware/is-admin.js and of the guess-pic handlers. */
  predicate IsAdmin(user: Doc) {
    Get(user, "accountType") == Str("admin")
  }

  /** The `quizType` enum of a `takenQuizzes` entry. */
  predicate TakenQuizTypeValid(t: Json) {
    t == Str("PicQuizz") || t == Str("Quiz") || t == Str("Scribbly")
  }

  function AvatarURL(domain: string, account: Json): string {
    domain + "api/users/" + Text(account) + "/avatar"
  }

  function CoverPhotoURL(domain: string, account: Json): string {
    domain + "api/users/" + Text(account) + "/coverPhoto"
  }

  /** `toJSON`: the secret and binary fields removed, an image URL added for
      each image the user has. */
  function ToJSON(domain: string, user: Doc): (r: Doc)
    ensures "password" !in r && "tokens" !in r && "avatar" !in r && "coverPhoto" !in r
    ensures Truthy(Get(user, "avatar")) ==>
              Get(r, "avatarURL") == Str(AvatarURL(domain, Get(user, "account")))
    ensures !Truthy(Get(user, "avatar")) ==> Get(r, "avatarURL") == Get(user, "avatarURL")
    ensures Truthy(Get(user, "coverPhoto")) ==>
              Get(r, "coverPhotoURL") == Str(CoverPhotoURL(domain, Get(user, "account")))
    ensures !Truthy(Get(user, "coverPhoto")) ==> Get(r, "coverPhotoURL") == Get(user, "coverPhotoURL")
    ensures forall k :: k !in {"password", "tokens", "avatar", "coverPhoto", "avatarURL", "coverPhotoURL"} ==>
              Get(r, k) == Get(user, k)
  {
    var withAvatar := if Truthy(Get(user, "avatar"))
                      then user["avatarURL" := Str(AvatarURL(domain, Get(user, "account")))]
                      else user;
    var withCover := if Truthy(Get(user, "coverPhoto"))
                     then withAvatar["coverPhotoURL" := Str(CoverPhotoURL(domain, Get(user, "account")))]
                     else withAvatar;
    withCover - {"password", "tokens", "avatar", "coverPhoto"}
  }

  /** A document that has only the schema's fields holds an image URL exactly
      when it holds the image. */
  lemma ImageURLIffImage(domain: string, user: Doc)
    requires "avatarURL" !in user && "coverPhotoURL" !in user
    ensures "avatarURL" in ToJSON(domain, user) <==> Truthy(Get(user, "avatar"))
    ensures "coverPhotoURL" in ToJSON(domain, user) <==> Truthy(Get(user, "coverPhoto"))
  {
    var r := ToJSON(domain, user);
    assert Get(r, "avatarURL") != Undefined <==> "avatarURL" in r;
    assert Get(r, "coverPhotoURL") != Undefined <==> "coverPhotoURL" in r;
  }

  /** `{ token }` as stored in `tokens`. */
  function TokenEntry(token: string): Json {
    Obj(map["token" := Str(token)])
  }

  /** `generateAuthToken`: the signed token (a parameter here) is appended to
      the user's tokens and saved; every earlier token is kept. */
  method GenerateAuthToken(db: Db, u: Oid, signed: string) returns (token: string)
    requires u in db.users
    modifies db`users
    ensures token == signed
    ensures u in db.users
    ensures Items(Get(db.users[u], "tokens")) == Items(Get(old(db.users[u]), "tokens")) + [TokenEntry(signed)]
    ensures db.users == old(db.users)[u := Append(old(db.users[u]), "tokens", TokenEntry(signed))]
  {
    db.users := db.users[u := Append(db.users[u], "tokens", TokenEntry(signed))];
    token := signed;
  }

  /** `findByCredentials`: fails when no user has the account and when the
      password does not match the stored hash (`matches` stands for bcrypt). */
  method FindByCredentials(db: Db, account: Json, password: Json, matches: (Json, Json) -> bool)
    returns (r: Reply<Oid>)
    ensures !HasMatch(db.users, "account", account) ==> r == Fails
    ensures r.Fails? && HasMatch(db.users, "account", account) ==>
              exists k :: k in db.users && Get(db.users[k], "account") == account
                          && !matches(password, Get(db.users[k], "password"))
    ensures r.Ok? ==> r.value in db.users && Get(db.users[r.value], "account") == account
                      && matches(password, Get(db.users[r.value], "password"))
    ensures r.Ok? || r.Fails?
  {
    var found := FindOne(db.users, "account", account);
    if found.None? {
      return Fails;
    }
    if !matches(password, Get(db.users[found.value], "password")) {
      return Fails;
    }
    r := Ok(found.value);
  }

  /** Whether `password` counts as modified for the save of `doc`, where
      `stored` is the document as last saved (none for a new document). */
  predicate PasswordModified(stored: Option<Doc>, doc: Doc) {
    match stored
    case None => "password" in doc
    case Some(s) => Get(s, "password") != Get(doc, "password")
  }

  /** The pre-save hook: the password is replaced by its hash only when it
      was modified. */
  function PreSave(stored: Option<Doc>, doc: Doc, hash: Json -> Json): (r: Doc)
    ensures !PasswordModified(stored, doc) ==> r == doc
    ensures PasswordModified(stored, doc) ==> Get(r, "password") == hash(Get(doc, "password"))
    ensures forall k :: k != "password" ==> Get(r, k) == Get(doc, k)
  {
    if PasswordModified(stored, doc) then doc["password" := hash(Get(doc, "password"))] else doc
  }

  /** Saving an update that leaves the password as stored never rehashes it. */
  lemma SaveKeepsUnchangedPassword(stored: Doc, updates: Doc, hash: Json -> Json)
    requires "password" !in updates
    ensures PreSave(Some(stored), stored + updates, hash) == stored + updates
  {
    assert Get(stored + updates, "password") == Get(stored, "password");
  }
}
