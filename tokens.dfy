/** The saved-token store of docker/trackman.py: JSON files mapping each
    username to its token and the time it was saved. The reader and the
    writers use two different files, `~/tokens/trackman_tokens.json` and
    `./token/trackman_tokens.json`; both are fields of a store object. The
    clock is a parameter. */
module Tokens {
  import opened Text

  /** One record of the file. */
  datatype Entry = Entry(token: string, timestamp: real)

  /** The token file: missing, present but not valid JSON, or a dictionary.
      `Corrupt` stands for every file `json.load` cannot read. Two other
      shapes of file are not represented: valid JSON that is not an object
      (on which `save_token` raises `TypeError` at the assignment while
      `check_saved_tokens` catches the error and returns `{}`), and records
      lacking `"token"` or `"timestamp"` (which the check reads through
      `data.get` with defaults). */
  datatype TokenFile = Absent | Corrupt | Stored(entries: map<string, Entry>)

  /** The age below which a token is still valid: `86400 * 99999999` seconds. */
  const MaxAge: real := 86400.0 * 99999999.0

  /** What `save_token` starts from: the stored dictionary, or `{}` when the
      file is missing or cannot be read. */
  function Existing(f: TokenFile): (m: map<string, Entry>)
    ensures f.Stored? ==> m == f.entries
    ensures !f.Stored? ==> m == map[]
  {
    if f.Stored? then f.entries else map[]
  }

  /** The file after `save_token(token, username)` at time `now`. */
  function AfterSave(f: TokenFile, token: string, username: string, now: real): (g: TokenFile)
    ensures token == "" || username == "" ==> g == f
    ensures token != "" && username != "" ==>
              g.Stored? && username in g.entries && g.entries[username] == Entry(token, now)
              && g.entries.Keys == Existing(f).Keys + {username}
              && forall u :: u in Existing(f) && u != username ==> g.entries[u] == Existing(f)[u]
  {
    if token == "" || username == "" then f
    else Stored(Existing(f)[username := Entry(token, now)])
  }

  /** The file after `invalidate_token(username)`, and what it returns. */
  function AfterInvalidate(f: TokenFile, username: Option<string>): (r: (TokenFile, bool))
    ensures f.Absent? ==> r == (f, false)
    ensures !f.Absent? && username.None? ==> r == (Absent, true)
    ensures f.Corrupt? && username.Some? ==> r == (f, false)
    ensures f.Stored? && username.Some? ==>
              r.1 && r.0.Stored? && r.0.entries.Keys == f.entries.Keys - {username.value}
              && forall u :: u in r.0.entries ==> r.0.entries[u] == f.entries[u]
  {
    match f
    case Absent => (f, false)
    case Corrupt => if username.None? then (Absent, true) else (f, false)
    case Stored(m) =>
      match username
      case None => (Absent, true)
      case Some(u) => (Stored(m - {u}), true)
  }

  /** `check_saved_tokens` at time `now`: username to token for every entry
      younger than the maximum age; `{}` when the file is missing or cannot
      be read. */
  function ValidTokens(f: TokenFile, now: real): (tokens: map<string, string>)
    ensures !f.Stored? ==> tokens == map[]
    ensures f.Stored? ==> forall u :: u in tokens <==> u in f.entries && now - f.entries[u].timestamp < MaxAge
    ensures f.Stored? ==> forall u :: u in tokens ==> tokens[u] == f.entries[u].token
  {
    if !f.Stored? then map[]
    else map u | u in f.entries && now - f.entries[u].timestamp < MaxAge :: f.entries[u].token
  }

  class TokenStore {
    /** `os.path.join(TOKEN_DIR, "trackman_tokens.json")` with `TOKEN_DIR`
        the `tokens` folder of the home directory: the file
        `check_saved_tokens` reads. */
    var home: TokenFile
    /** `token/trackman_tokens.json` under the working directory: the file
        `save_token` and `invalidate_token` write. */
    var local: TokenFile

    constructor(home: TokenFile, local: TokenFile)
      ensures this.home == home && this.local == local
    {
      this.home := home;
      this.local := local;
    }

    /** `save_token`: refuses an empty token or username and writes nothing;
        otherwise sets that username's entry of the local file and nothing
        else. The file the check reads is not touched. */
    method SaveToken(token: string, username: string, now: real) returns (ok: bool)
      modifies this
      ensures ok <==> token != "" && username != ""
      ensures local == AfterSave(old(local), token, username, now)
      ensures home == old(home)
    {
      if token == "" || username == "" {
        return false;
      }
      var data: map<string, Entry> := map[];
      if local.Stored? {
        data := local.entries;
      }
      data := data[username := Entry(token, now)];
      local := Stored(data);
      ok := true;
    }

    /** `invalidate_token`: `None` removes the file, a username removes
        that entry only; a missing file, or an unreadable one when a
        username is given, gives `False`. Only the local file changes. */
    method InvalidateToken(username: Option<string>) returns (ok: bool)
      modifies this
      ensures (local, ok) == AfterInvalidate(old(local), username)
      ensures home == old(home)
    {
      if local.Absent? {
        return false;
      }
      if username.None? {
        local := Absent;
        return true;
      }
      if local.Corrupt? {
        return false;
      }
      var data := local.entries;
      if username.value in data {
        data := data - {username.value};
        local := Stored(data);
      } else {
        assert data - {username.value} == data;
      }
      ok := true;
    }

    /** `check_saved_tokens`: the loop over the entries of the home file. */
    method CheckSavedTokens(now: real) returns (tokens: map<string, string>)
      ensures tokens == ValidTokens(home, now)
    {
      if !home.Stored? {
        return map[];
      }
      var data := home.entries;
      var rest := data.Keys;
      tokens := map[];
      while rest != {}
        invariant rest <= data.Keys
        invariant forall u :: u in tokens <==> u in data.Keys - rest && now - data[u].timestamp < MaxAge
        invariant forall u :: u in tokens ==> tokens[u] == data[u].token
        decreases |rest|
      {
        var u :| u in rest;
        if now - data[u].timestamp < MaxAge {
          tokens := tokens[u := data[u].token];
        }
        rest := rest - {u};
      }
    }
  }

  // ---------------------------------------------------------------------
  // The two files as written, and the single file evidently intended.

  /** On a fresh machine, where neither file exists, a login saves a token
      that the check of the file it writes would list, but the check as
      written reads the other file and lists nobody. */
  lemma FreshLoginIsNotListed()
    ensures var local := AfterSave(Absent, "t", "u", 0.0);
            "u" in ValidTokens(local, 0.0) && ValidTokens(local, 0.0)["u"] == "t"
            && ValidTokens(Absent, 0.0) == map[]
  {
    var local := AfterSave(Absent, "t", "u", 0.0);
    assert local.entries["u"].timestamp == 0.0;
  }

  /** When both files hold the same valid token, logging the user out
      removes it from the local file only, and the check as written still
      lists the user. */
  lemma LoggedOutUserIsStillListed()
    ensures var f := Stored(map["u" := Entry("t", 0.0)]);
            AfterInvalidate(f, Some("u")) == (Stored(map[]), true)
            && "u" in ValidTokens(f, 0.0)
  {
    var f := Stored(map["u" := Entry("t", 0.0)]);
    assert f.entries - {"u"} == map[];
    assert f.entries["u"].timestamp == 0.0;
  }

  /** With one file for reading and writing: a token just saved is the
      valid token of its user, and every other user keeps the valid token
      they had. */
  lemma SaveThenCheck(f: TokenFile, token: string, username: string, now: real)
    requires token != "" && username != ""
    ensures var tokens := ValidTokens(AfterSave(f, token, username, now), now);
            username in tokens && tokens[username] == token
            && (f.Stored? ==> forall u :: u != username ==>
                  (u in tokens <==> u in ValidTokens(f, now))
                  && (u in tokens ==> tokens[u] == ValidTokens(f, now)[u]))
  {
  }

  /** With one file: after invalidating one user, that user has no valid
      token and the others keep theirs. */
  lemma InvalidateThenCheck(f: TokenFile, username: string, now: real)
    requires f.Stored?
    ensures var tokens := ValidTokens(AfterInvalidate(f, Some(username)).0, now);
            username !in tokens
            && forall u :: u != username ==>
                 (u in tokens <==> u in ValidTokens(f, now))
                 && (u in tokens ==> tokens[u] == ValidTokens(f, now)[u])
  {
  }

  /** With one file: invalidating everything leaves no valid token. */
  lemma InvalidateAllThenCheck(f: TokenFile, now: real)
    ensures ValidTokens(AfterInvalidate(f, None).0, now) == map[]
  {
  }

  /** Saving the same token twice at the same time is saving it once. */
  lemma SaveIdempotent(f: TokenFile, token: string, username: string, now: real)
    ensures AfterSave(AfterSave(f, token, username, now), token, username, now) == AfterSave(f, token, username, now)
  {
  }

  /** Invalidating a user removes what saving for that user added: on a file
      without that user the two steps cancel out. */
  lemma SaveThenInvalidate(m: map<string, Entry>, token: string, username: string, now: real)
    requires token != "" && username != "" && username !in m
    ensures AfterInvalidate(AfterSave(Stored(m), token, username, now), Some(username)) == (Stored(m), true)
  {
    var g := AfterSave(Stored(m), token, username, now).entries;
    assert g - {username} == m;
  }
}
