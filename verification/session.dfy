/** The signed-in session held in the store: the `user` slice with its two
    reducers, and the JSON-like user record the server hands back. */
module Session {
  import opened Wrappers
  import opened Text

  /** A field value of a server-sent JSON object, as far as the screens read it. */
  datatype Value = Undefined | Null | Num(n: int) | Str(s: String)

  /** A user object as the server sends it: field name to value. */
  type UserRecord = map<String, Value>

  /** `u.field`: absent fields read as `undefined`. */
  function Get(u: UserRecord, field: String): (v: Value)
    ensures field !in u ==> v == Undefined
    ensures field in u ==> v == u[field]
  {
    if field in u then u[field] else Undefined
  }

  /** `{ ...u, docId: u.doc_id }`: a copy of the record with `docId` set to
      the value of `doc_id` (undefined when there is none). */
  function Normalize(u: UserRecord): (r: UserRecord)
    ensures "docId" in r && r["docId"] == Get(u, "doc_id")
    ensures forall k :: k != "docId" ==> (k in r <==> k in u)
    ensures forall k :: k != "docId" && k in u ==> r[k] == u[k]
  {
    u["docId" := Get(u, "doc_id")]
  }

  /** Normalising a stored user again changes nothing. */
  lemma NormalizeIdempotent(u: UserRecord)
    ensures Normalize(Normalize(u)) == Normalize(u)
  {
    var r := Normalize(u);
    assert Get(r, "doc_id") == Get(u, "doc_id");
  }

  datatype State = State(token: Option<String>, user: Option<UserRecord>)

  /** Signed out: no token, no user. */
  const Initial: State := State(None, None)

  /** `setCredentials`: the token and the normalised user replace whatever was stored. */
  function SetCredentials(s: State, token: String, user: UserRecord): (r: State)
    ensures r.token == Some(token)
    ensures r.user.Some? && Get(r.user.value, "docId") == Get(user, "doc_id")
    ensures forall k :: k != "docId" ==> Get(r.user.value, k) == Get(user, k)
  {
    State(Some(token), Some(Normalize(user)))
  }

  /** `clearCredentials`: both fields emptied. */
  function ClearCredentials(s: State): (r: State)
    ensures r.token.None? && r.user.None?
  {
    Initial
  }

  /** The state before a `setCredentials` does not show through: the last
      write wins. */
  lemma LastCredentialsWin(s: State, t1: String, u1: UserRecord, t2: String, u2: UserRecord)
    ensures SetCredentials(SetCredentials(s, t1, u1), t2, u2) == SetCredentials(s, t2, u2)
    ensures SetCredentials(s, t2, u2) == SetCredentials(Initial, t2, u2)
  {
  }

  /** Clearing is idempotent, and signing in then out returns to the initial state. */
  lemma ClearRestoresInitial(s: State, token: String, user: UserRecord)
    ensures ClearCredentials(ClearCredentials(s)) == ClearCredentials(s) == Initial
    ensures ClearCredentials(SetCredentials(s, token, user)) == Initial
  {
  }

  /** `user?.role === r`. */
  predicate HasRole(user: Option<UserRecord>, role: String)
  {
    user.Some? && Get(user.value, "role") == Str(role)
  }

  /** The role read from the store is the role the server sent. */
  lemma StoredRoleIsSentRole(s: State, token: String, user: UserRecord, role: String)
    ensures HasRole(SetCredentials(s, token, user).user, role) <==> Get(user, "role") == Str(role)
  {
  }
}
