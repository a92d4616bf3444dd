/** Credential lookup and the choice between an anonymous and an authenticated registry client. */
module Credentials {
  import opened Wrappers
  import opened Errors

  /** A username/password credential as the credentials store holds it. */
  datatype UsernamePassword = UsernamePassword(id: string, username: string, password: string)

  /** How the registry client talks to the registry. */
  datatype Registry =
      /** `builder.insecure()`: plain transport allowed, no authentication. */
    | Insecure
      /** `builder.defaults(username, password)`: default transport, basic authentication. */
    | Authenticated(username: string, password: string)

  /** `i` is the position of the first credential in `store` whose ID is `id`. */
  ghost predicate IsFirstMatch(store: seq<UsernamePassword>, id: string, i: int) {
    && 0 <= i < |store|
    && store[i].id == id
    && forall j :: 0 <= j < i ==> store[j].id != id
  }

  /** `firstOrNull` over the store with the matcher "has this ID". */
  function FirstWithId(store: seq<UsernamePassword>, id: string): (r: Option<UsernamePassword>)
    ensures r.None? <==> forall i :: 0 <= i < |store| ==> store[i].id != id
    ensures r.Some? ==> exists i :: IsFirstMatch(store, id, i) && store[i] == r.value
    decreases |store|
  {
    if |store| == 0 then None
    else if store[0].id == id then
      assert IsFirstMatch(store, id, 0);
      Some(store[0])
    else
      var r := FirstWithId(store[1..], id);
      assert r.Some? ==> exists i :: IsFirstMatch(store, id, i) && store[i] == r.value by {
        if r.Some? {
          var i :| IsFirstMatch(store[1..], id, i) && store[1..][i] == r.value;
          assert IsFirstMatch(store, id, i + 1);
        }
      }
      r
  }

  /** A credentials ID that selects nothing: Java's null or the empty string. */
  predicate Unset(credentialsId: Option<string>) {
    credentialsId.None? || credentialsId.value == ""
  }

  /** `getCredentials`: no credential for an unset ID, otherwise the first stored one with that ID. */
  function GetCredentials(store: seq<UsernamePassword>, credentialsId: Option<string>): (r: Option<UsernamePassword>)
    ensures Unset(credentialsId) ==> r.None?
    ensures !Unset(credentialsId) ==>
      (r.None? <==> forall i :: 0 <= i < |store| ==> store[i].id != credentialsId.value)
    ensures r.Some? ==> exists i :: IsFirstMatch(store, credentialsId.value, i) && store[i] == r.value
  {
    if Unset(credentialsId) then None else FirstWithId(store, credentialsId.value)
  }

  /** `buildRegistry`: anonymous and insecure for an unset ID, an error for an ID that matches no
      credential, and otherwise authenticated with the matched credential's username and password. */
  function BuildRegistry(store: seq<UsernamePassword>, credentialsId: Option<string>): (r: Result<Registry, Error>)
    ensures Unset(credentialsId) ==> r == Ok(Insecure)
    ensures r.Err? <==>
      !Unset(credentialsId) && forall i :: 0 <= i < |store| ==> store[i].id != credentialsId.value
    ensures r.Err? ==> r.error == CredentialsNotFound(credentialsId.value)
    ensures r.Err? ==> r.error.Message() == "No credentials found with ID: " + credentialsId.value
    ensures r.Ok? && r.value.Authenticated? ==>
      exists i :: && IsFirstMatch(store, credentialsId.value, i)
                  && r.value == Authenticated(store[i].username, store[i].password)
    ensures r.Ok? ==> (r.value.Insecure? <==> Unset(credentialsId))
  {
    if Unset(credentialsId) then Ok(Insecure)
    else match GetCredentials(store, credentialsId)
      case None => Err(CredentialsNotFound(credentialsId.value))
      case Some(c) => Ok(Authenticated(c.username, c.password))
  }
}
