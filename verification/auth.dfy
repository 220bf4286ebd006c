/**
 * The credential decision made before every mail send.
 *
 * A saved token is loaded when the token file exists.  A valid credential is
 * used as it is.  Otherwise an expired credential that carries a refresh token
 * is refreshed, and anything else (no file, or an invalid credential that
 * cannot be refreshed) goes through the interactive browser flow; after either
 * of those two paths the credential is written back to the token file.  The
 * token endpoint and the browser flow are external: their results are inputs.
 */
module Auth {
  import opened Results

  /** What the branch reads of a stored OAuth2 credential. */
  datatype Credential = Credential(valid: bool, expired: bool, refreshToken: Option<string>)

  /** The token file: absent, or holding a saved credential. */
  datatype TokenFile = Missing | Saved(credential: Credential)

  /** The three ways the credential can be obtained. */
  datatype Action = Reuse | Refresh | Interactive

  /** The chosen path, the credential handed to the mail client, and the token-file writes. */
  datatype AuthResult = AuthResult(action: Action, credential: Credential, writes: seq<Credential>)

  /** `creds.refresh_token` is truthy: present and not the empty string. */
  predicate HasRefreshToken(c: Credential) {
    c.refreshToken.Some? && |c.refreshToken.value| > 0
  }

  /** A loaded credential that can be used without any further step. */
  predicate IsUsable(file: TokenFile) {
    file.Saved? && file.credential.valid
  }

  /** A loaded credential that is not valid, has expired, and can be refreshed. */
  predicate IsRefreshable(file: TokenFile) {
    file.Saved? && !file.credential.valid && file.credential.expired && HasRefreshToken(file.credential)
  }

  /**
   * Obtains the credential for the mail client.  `refreshed` is what the
   * token endpoint makes of the saved credential, `issued` what the
   * interactive flow returns; each is used only on its own path.
   */
  function Authenticate(file: TokenFile, refreshed: Credential, issued: Credential): (r: AuthResult)
    ensures r.action == Reuse <==> IsUsable(file)
    ensures r.action == Refresh <==> IsRefreshable(file)
    ensures r.action == Interactive <==> !IsUsable(file) && !IsRefreshable(file)
    ensures r.action == Reuse ==> r.credential == file.credential && r.writes == []
    ensures r.action == Refresh ==> r.credential == refreshed
    ensures r.action == Interactive ==> r.credential == issued
    ensures r.action != Reuse ==> r.writes == [r.credential]
  {
    match file
    case Saved(c) =>
      if c.valid then AuthResult(Reuse, c, [])
      else if c.expired && HasRefreshToken(c) then AuthResult(Refresh, refreshed, [refreshed])
      else AuthResult(Interactive, issued, [issued])
    case Missing =>
      AuthResult(Interactive, issued, [issued])
  }

  /** The token file once the writes of an authentication have happened: the last write wins. */
  function FileAfter(file: TokenFile, r: AuthResult): (f: TokenFile)
    ensures r.writes == [] ==> f == file
    ensures r.writes != [] ==> f.Saved? && f.credential == r.writes[|r.writes| - 1]
  {
    if |r.writes| == 0 then file else Saved(r.writes[|r.writes| - 1])
  }

  /**
   * Authentication leaves behind a token file holding the very credential it
   * handed out, and writes that file at most once.
   */
  lemma {:induction false} FileHoldsCredential(file: TokenFile, refreshed: Credential, issued: Credential)
    ensures var r := Authenticate(file, refreshed, issued);
            |r.writes| <= 1 && FileAfter(file, r) == Saved(r.credential)
  {
  }

  /**
   * The token file as a later load sees it: the saved token and refresh token
   * are kept, while `valid` and `expired` are recomputed against the clock of
   * that later moment and are given here.
   */
  function Reload(file: TokenFile, valid: bool, expired: bool): (f: TokenFile)
    ensures f.Saved? <==> file.Saved?
    ensures f.Saved? ==> f.credential.refreshToken == file.credential.refreshToken
    ensures f.Saved? ==> f.credential.valid == valid && f.credential.expired == expired
  {
    match file
    case Missing => Missing
    case Saved(c) => Saved(c.(valid := valid, expired := expired))
  }

  /**
   * Once a credential carrying a refresh token has been saved, a later run
   * never needs the browser again as long as that credential is either still
   * valid or known to have expired: it reuses it when valid and refreshes it
   * otherwise.
   */
  lemma {:induction false} LaterRunAvoidsBrowser(
    file: TokenFile, refreshed: Credential, issued: Credential,
    valid2: bool, expired2: bool, refreshed2: Credential, issued2: Credential)
    requires HasRefreshToken(Authenticate(file, refreshed, issued).credential)
    requires valid2 || expired2
    ensures var r1 := Authenticate(file, refreshed, issued);
            var r2 := Authenticate(Reload(FileAfter(file, r1), valid2, expired2), refreshed2, issued2);
            && r2.action != Interactive
            && (r2.action == Reuse <==> valid2)
            && (r2.action == Refresh <==> !valid2)
  {
    FileHoldsCredential(file, refreshed, issued);
  }

  /** An expired credential whose refresh token is the empty string is not refreshed. */
  lemma {:induction false} EmptyRefreshTokenIsInteractive(refreshed: Credential, issued: Credential)
    ensures Authenticate(Saved(Credential(false, true, Some(""))), refreshed, issued).action == Interactive
  {
  }
}
