/** The local inventory scan (docker/trackman.py `get_existing_sessions`):
    the (date, session) keys of the files saved for each variant, read from
    a directory listing. A listing maps a directory path to the names it
    holds; a directory absent from the map does not exist. */
module Inventory {
  import opened Text
  import opened FileNames

  type Listing = map<string, seq<string>>

  /** `os.listdir(dir)` when `os.path.exists(dir)`, else nothing. */
  function Names(fs: Listing, dir: string): seq<string> {
    if dir in fs then fs[dir] else []
  }

  /** The keys the scanner records for a list of names of variant `b`. */
  function KeysOf(names: seq<string>, b: BallType): (keys: set<NameMatch>)
    ensures forall k :: k in keys <==> exists name :: name in names && ScannedKey(name, b) == Some(k)
  {
    set name | name in names && ScannedKey(name, b).Some? :: ScannedKey(name, b).value
  }

  /** The key set for variant `b` under `Data[/username]`. */
  function Scanned(fs: Listing, username: string, b: BallType): set<NameMatch> {
    KeysOf(Names(fs, ScanDir(username, b)), b)
  }

  /** One directory loop of `get_existing_sessions`. */
  method ScanDirectory(fs: Listing, dir: string, b: BallType) returns (keys: set<NameMatch>)
    ensures keys == KeysOf(Names(fs, dir), b)
  {
    keys := {};
    if dir !in fs {
      return;
    }
    var names := fs[dir];
    var tail := Suffix(b) + ".csv";
    for i := 0 to |names|
      invariant keys == KeysOf(names[..i], b)
    {
      var name := names[i];
      assert names[..i + 1] == names[..i] + [name];
      KeysOfAppend(names[..i], name, b);
      if StartsWith(name, Head) && EndsWith(name, tail) {
        var m := SearchSessionFile(name, tail);
        if m.Some? {
          keys := keys + {m.value};
        }
      }
    }
    assert names[..|names|] == names;
  }

  /** `get_existing_sessions(username)`: the pro set (from `<base>/pro`) and
      the range set (from `<base>/range`). */
  method GetExistingSessions(fs: Listing, username: string) returns (pro: set<NameMatch>, range: set<NameMatch>)
    ensures pro == Scanned(fs, username, Premium) && range == Scanned(fs, username, Range)
  {
    pro := ScanDirectory(fs, ScanDir(username, Premium), Premium);
    range := ScanDirectory(fs, ScanDir(username, Range), Range);
  }

  /** Every recorded key holds two non-empty digit strings. */
  lemma ScannedKeysAreDigits(fs: Listing, username: string, b: BallType, k: NameMatch)
    requires k in Scanned(fs, username, b)
    ensures |k.date| > 0 && IsDigits(k.date) && |k.session| > 0 && IsDigits(k.session)
  {
    var name :| name in Names(fs, ScanDir(username, b)) && ScannedKey(name, b) == Some(k);
    ScannedKeyDigits(name, b);
  }

  lemma ScannedKeyDigits(name: string, b: BallType)
    ensures ScannedKey(name, b).Some? ==>
              |ScannedKey(name, b).value.date| > 0 && IsDigits(ScannedKey(name, b).value.date)
              && |ScannedKey(name, b).value.session| > 0 && IsDigits(ScannedKey(name, b).value.session)
  {
    if StartsWith(name, Head) && EndsWith(name, Suffix(b) + ".csv") {
      SearchDigits(name, Suffix(b) + ".csv");
    }
  }

  lemma {:induction false} SearchDigits(s: string, tail: string)
    ensures SearchSessionFile(s, tail).Some? ==>
              |SearchSessionFile(s, tail).value.date| > 0 && IsDigits(SearchSessionFile(s, tail).value.date)
              && |SearchSessionFile(s, tail).value.session| > 0 && IsDigits(SearchSessionFile(s, tail).value.session)
    decreases |s|
  {
    if |s| > 0 { SearchDigits(s[1..], tail); }
  }

  // ---------------------------------------------------------------------
  // Saving a file, then scanning.

  /** The listing after a file `name` is written into `dir`. */
  function WithFile(fs: Listing, dir: string, name: string): Listing {
    fs[dir := Names(fs, dir) + [name]]
  }

  lemma KeysOfAppend(names: seq<string>, name: string, b: BallType)
    ensures KeysOf(names + [name], b)
         == KeysOf(names, b) + (if ScannedKey(name, b).Some? then {ScannedKey(name, b).value} else {})
  {
  }

  /** A RANGE save with a parsed date `d` and session `n` adds exactly the key
      `(d, str(n))` to the range set and leaves the pro set alone. */
  lemma RangeSaveIsScanned(fs: Listing, username: string, d: DateStamp, n: nat)
    ensures var fs' := WithFile(fs, SaveDir(username, Range), SessionFileName(Some(d), NatToString(n), Range));
            Scanned(fs', username, Range) == Scanned(fs, username, Range) + {NameMatch(d, NatToString(n))}
            && Scanned(fs', username, Premium) == Scanned(fs, username, Premium)
  {
    var name := SessionFileName(Some(d), NatToString(n), Range);
    var fs' := WithFile(fs, SaveDir(username, Range), name);
    assert SaveDir(username, Range) == ScanDir(username, Range);
    DirsDiffer(username);
    assert Names(fs', ScanDir(username, Premium)) == Names(fs, ScanDir(username, Premium));
    ScannerReadsWriterName(d, n, Range);
    KeysOfAppend(Names(fs, ScanDir(username, Range)), name, Range);
  }

  /** A PREMIUM save lands in `premium`, which the scanner never reads: neither
      set changes, so a saved PREMIUM session is never reported as present. */
  lemma PremiumSaveIsNeverScanned(fs: Listing, username: string, name: string)
    ensures var fs' := WithFile(fs, SaveDir(username, Premium), name);
            Scanned(fs', username, Premium) == Scanned(fs, username, Premium)
            && Scanned(fs', username, Range) == Scanned(fs, username, Range)
  {
    DirsDiffer(username);
  }

  /** The three directories `<base>/premium`, `<base>/pro` and `<base>/range` are distinct. */
  lemma DirsDiffer(username: string)
    ensures SaveDir(username, Premium) != ScanDir(username, Premium)
    ensures SaveDir(username, Premium) != ScanDir(username, Range)
    ensures SaveDir(username, Range) != ScanDir(username, Premium)
  {
    var base := BaseDir(username) + "/";
    assert |SaveDir(username, Premium)| == |base| + 7;
    assert |ScanDir(username, Premium)| == |base| + 3;
    assert |ScanDir(username, Range)| == |base| + 5;
    assert |SaveDir(username, Range)| == |base| + 5;
    assert SaveDir(username, Range)[|base|] == 'r' && ScanDir(username, Premium)[|base|] == 'p';
  }

  /** A file written without a date is never counted for either variant. */
  lemma UndatedSaveIsNeverScanned(fs: Listing, username: string, session: string, b: BallType)
    requires IsDigits(session)
    ensures var fs' := WithFile(fs, SaveDir(username, b), SessionFileName(None, session, b));
            Scanned(fs', username, Premium) == Scanned(fs, username, Premium)
            && Scanned(fs', username, Range) == Scanned(fs, username, Range)
  {
    var name := SessionFileName(None, session, b);
    UndatedNameIsSkipped(session, b, Premium);
    UndatedNameIsSkipped(session, b, Range);
    DirsDiffer(username);
    KeysOfAppend(Names(fs, SaveDir(username, b)), name, Premium);
    KeysOfAppend(Names(fs, SaveDir(username, b)), name, Range);
  }
}
