/**
 * The client-side auth guard: on every auth state change it compares the
 * session's user with the user the server rendered for, and asks the router
 * to refresh the server components when they differ.
 */
module AuthGuard {
  import opened Common

  /** A signed-in user; only the id is compared. */
  datatype User = User(id: string)

  /** `user?.id`. */
  function IdOf(user: Option<User>): Option<string> {
    if user.Some? then Some(user.value.id) else None
  }

  /** The callback's test: a user appeared or disappeared, or else the ids
      differ (`session?.user?.id !== serverUser?.id`). The event that
      `onAuthStateChange` reports is passed on but never looked at, so its
      type is left open. */
  function ShouldRefresh<Event>(event: Event, sessionUser: Option<User>, serverUser: Option<User>): (refresh: bool)
    ensures refresh <==> IdOf(sessionUser) != IdOf(serverUser)
  {
    if (sessionUser.Some? && serverUser.None?) || (sessionUser.None? && serverUser.Some?) then true
    else IdOf(sessionUser) != IdOf(serverUser)
  }

  /** Signing in or out, as seen against the rendered user, always refreshes;
      with no user on either side nothing happens. */
  lemma RefreshOnPresenceChange<Event>(event: Event, sessionUser: Option<User>, serverUser: Option<User>)
    ensures sessionUser.Some? != serverUser.Some? ==> ShouldRefresh(event, sessionUser, serverUser)
    ensures sessionUser.None? && serverUser.None? ==> !ShouldRefresh(event, sessionUser, serverUser)
  {
  }

  /** With users on both sides the guard refreshes exactly when they are
      different users, whatever the event. */
  lemma RefreshOnUserChange<Event>(event: Event, a: User, b: User)
    ensures ShouldRefresh(event, Some(a), Some(b)) <==> a.id != b.id
  {
  }
}
