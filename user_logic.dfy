/** Removing the current session's token from a user's token list
    (src/routers/logic/user-logic.js). */
module UserLogic {
  import opened Json

  /** `entry.token` */
  function TokenOf(entry: Json): Json {
    Field(entry, "token")
  }

  /** The number of entries whose token is `cur`. */
  function CountMatching(tokens: seq<Json>, cur: string): nat {
    if tokens == [] then 0
    else (if TokenOf(tokens[0]) == Str(cur) then 1 else 0) + CountMatching(tokens[1..], cur)
  }

  /** `tokens.filter(token => token.token !== curToken)`: no entry with the
      current token is left, every other entry is kept, and exactly the
      matching entries are dropped. */
  function RemoveCurrentToken(tokens: seq<Json>, cur: string): (r: seq<Json>)
    ensures forall e :: e in r ==> TokenOf(e) != Str(cur)
    ensures forall e :: e in r <==> e in tokens && TokenOf(e) != Str(cur)
    ensures |r| == |tokens| - CountMatching(tokens, cur)
  {
    if tokens == [] then []
    else if TokenOf(tokens[0]) == Str(cur) then RemoveCurrentToken(tokens[1..], cur)
    else [tokens[0]] + RemoveCurrentToken(tokens[1..], cur)
  }

  /** The filter works entry by entry: on a concatenation it is the
      concatenation of the filtered parts, so the kept entries stay in their
      original order. */
  lemma {:induction false} RemoveDistributes(a: seq<Json>, b: seq<Json>, cur: string)
    ensures RemoveCurrentToken(a + b, cur) == RemoveCurrentToken(a, cur) + RemoveCurrentToken(b, cur)
  {
    if a != [] {
      assert (a + b)[1..] == a[1..] + b;
      RemoveDistributes(a[1..], b, cur);
    } else {
      assert a + b == b;
    }
  }

  /** On one entry the filter keeps it exactly when its token differs. */
  lemma RemoveSingle(e: Json, cur: string)
    ensures RemoveCurrentToken([e], cur) == if TokenOf(e) == Str(cur) then [] else [e]
  {
    assert [e][1..] == [];
  }

  /** Removing the current token twice is the same as removing it once. */
  lemma {:induction false} RemoveIdempotent(tokens: seq<Json>, cur: string)
    ensures RemoveCurrentToken(RemoveCurrentToken(tokens, cur), cur) == RemoveCurrentToken(tokens, cur)
  {
    if tokens != [] {
      RemoveIdempotent(tokens[1..], cur);
      var rest := RemoveCurrentToken(tokens[1..], cur);
      if TokenOf(tokens[0]) != Str(cur) {
        assert ([tokens[0]] + rest)[1..] == rest;
      }
    }
  }
}
