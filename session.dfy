/** What the client components know about the signed-in user, and the test they
    share before calling the server: a user, a non-empty access token, and a
    token that is not a guest token. */
module Session {
  import opened Wrappers
  import Text

  /** The signed-in user; only `user_metadata.name` is read by the components. */
  datatype ClientUser = ClientUser(name: Option<string>)

  /** `user && accessToken && !accessToken.startsWith('guest')`: syncing needs a user and a
      non-empty token, never happens with a guest token, and happens with any other. */
  function CanSync(user: Option<ClientUser>, token: Option<string>): (r: bool)
    ensures r ==> user.Some? && token.Some? && token.value != ""
    ensures token.Some? && Text.StartsWith(token.value, "guest") ==> !r
    ensures user.Some? && token.Some? && token.value != "" && !Text.StartsWith(token.value, "guest") ==> r
  {
    user.Some? && token.Some? && token.value != "" && !Text.StartsWith(token.value, "guest")
  }

  /** `user?.user_metadata?.name || fallback`: an empty name counts as missing. */
  function NameOr(user: Option<ClientUser>, fallback: string): (r: string)
    ensures r == fallback || (user.Some? && user.value.name == Some(r))
    ensures r != fallback ==> r != ""
    ensures (user.Some? && user.value.name.Some? && user.value.name.value != "") ==> r == user.value.name.value
  {
    if user.Some? && user.value.name.Some? && user.value.name.value != "" then user.value.name.value
    else fallback
  }

  /** A guest token never reaches the server, whoever the user is. */
  lemma GuestNeverSyncs(user: Option<ClientUser>, token: string)
    requires Text.StartsWith(token, "guest")
    ensures !CanSync(user, Some(token))
  {
  }
}
