/** Logging in, refresh-token rotation with reuse detection, and signing out. */
module Sessions {
  import opened Base
  import opened Users
  import opened Accounts

  datatype Portal = MainPortal | AdminPortal

  /** Every token of the user that is not revoked yet becomes so. */
  function RevokeUser(tokens: map<Id, Token>, user: Id, now: Time): (r: map<Id, Token>)
    ensures r.Keys == tokens.Keys
  {
    map i | i in tokens ::
      if tokens[i].user == user && tokens[i].revokedAt.None? then tokens[i].(revokedAt := Some(now)) else tokens[i]
  }

  function RevokeFamily(tokens: map<Id, Token>, family: Id, now: Time): (r: map<Id, Token>)
    ensures r.Keys == tokens.Keys
  {
    map i | i in tokens ::
      if tokens[i].family == family && tokens[i].revokedAt.None? then tokens[i].(revokedAt := Some(now)) else tokens[i]
  }

  /** Adds a row to a family; the caller says which. */
  function Issue(s: State, user: Id, family: Id): State {
    s.(tokens := s.tokens[s.next := Token(user, family, s.clock + s.tokenLife, None, None)], next := s.next + 1)
  }

  /** Credentials first, entrance second; a session starts a family of its own. */
  function Login(s: State, user: Id, password: nat, portal: Option<Portal>): (State, Reply) {
    if user !in s.users || !s.users[user].isActive || s.users[user].password != password then (s, Refused(InvalidCredentials))
    else if portal == Some(AdminPortal) && s.users[user].role != Admin then (s, Refused(WrongPortal))
    else if portal == Some(MainPortal) && s.users[user].role == Admin then (s, Refused(WrongPortal))
    else (Issue(s, user, s.next), Done)
  }

  /** A revoked token presented again is evidence of theft: its family dies, although
      the call itself is refused. */
  function Rotate(s: State, raw: Id): (State, Reply) {
    if raw !in s.tokens then (s, Refused(InvalidRefreshToken))
    else
      var existing := s.tokens[raw];
      if existing.revokedAt.Some? then
        (s.(tokens := RevokeFamily(s.tokens, existing.family, s.clock)), Refused(InvalidRefreshToken))
      else if existing.expiresAt < s.clock then (s, Refused(InvalidRefreshToken))
      else if existing.user !in s.users || !s.users[existing.user].isActive then (s, Refused(InvalidRefreshToken))
      else
        var issued := Issue(s, existing.user, existing.family);
        (issued.(tokens := issued.tokens[raw := existing.(revokedAt := Some(s.clock), replacedBy := Some(s.next))]), Done)
  }

  function Logout(s: State, raw: Id): (State, Reply) {
    if raw !in s.tokens || s.tokens[raw].revokedAt.Some? then (s, Done)
    else (s.(tokens := s.tokens[raw := s.tokens[raw].(revokedAt := Some(s.clock))]), Done)
  }

  function ChangePassword(s: State, user: Id, current: nat, replacement: nat): (State, Reply) {
    if user !in s.users || !s.users[user].isActive then (s, Refused(NotAuthenticated))
    else if s.users[user].password != current then (s, Refused(IncorrectPassword))
    else
      (s.(users := s.users[user := s.users[user].(password := replacement, mustChangePassword := false)],
          tokens := RevokeUser(s.tokens, user, s.clock)), Done)
  }
}
