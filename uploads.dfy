/** The in-memory upload registry of docker/app.py: `UPLOADED_DATA` maps a
    user to the frame of uploaded records, and `UPLOADED_FILES_METADATA`
    maps a file name to the hash and size of its content, in insertion
    order. `handle_file_upload` checks each file of a batch against the
    registry and stores the accepted ones after the batch. The MD5 digest is
    an input: a file's content hash is given with the file. */
module Uploads {
  import opened Text
  import opened Sorting
  import opened ShotRows

  /** `{'hash', 'size', 'shots'}`; the upload time is left out. */
  datatype FileMeta = FileMeta(hash: string, size: nat, shots: nat)

  /** One uploaded file: its name, the hash and size of its content, and the
      records it parses to (`None` when decoding or parsing fails). */
  datatype Upload = Upload(name: string, hash: string, size: nat, rows: Option<seq<Record>>)

  /** The user every upload is filed under. */
  const UploadUser: string := "Uploaded Data"

  predicate Matches(m: FileMeta, hash: string, size: nat) { m.hash == hash && m.size == size }

  /** Some registered file has this content hash and size. */
  predicate IsDup(meta: map<string, FileMeta>, hash: string, size: nat) {
    exists f :: f in meta && Matches(meta[f], hash, size)
  }

  /** The keys of `m` are the entries of `order`, each once. */
  predicate KeysInOrder(m: map<string, FileMeta>, order: seq<string>) {
    Distinct(order) && (forall f | f in m :: f in order) && (forall f | f in order :: f in m)
  }

  /** `UPLOADED_DATA.get(user)` with the empty frame as default. */
  function Existing(data: map<string, seq<Record>>, user: string): seq<Record> {
    if user in data then data[user] else []
  }

  // ---------------------------------------------------------------------
  // The accepted files of a batch.

  /** A file the batch keeps once it is not a duplicate: it parses to a
      non-empty frame. */
  predicate Readable(u: Upload) { u.rows.Some? && |u.rows.value| > 0 }

  /** The files `handle_file_upload` accepts, in batch order: each is checked
      against the registry as it was before the batch. */
  function Accepted(meta: map<string, FileMeta>, files: seq<Upload>): (acc: seq<Upload>)
    ensures |acc| <= |files|
  {
    if |files| == 0 then []
    else
      var u := files[|files| - 1];
      Accepted(meta, files[..|files| - 1]) + (if !IsDup(meta, u.hash, u.size) && Readable(u) then [u] else [])
  }

  /** The records of the accepted files, concatenated in order. */
  function AllRows(us: seq<Upload>): seq<Record> {
    if |us| == 0 then []
    else AllRows(us[..|us| - 1]) + us[|us| - 1].rows.GetOr([])
  }

  /** `files_metadata` after the batch: each accepted file's entry, a later
      file of the same name replacing an earlier one. */
  function BatchMeta(acc: seq<Upload>): map<string, FileMeta> {
    if |acc| == 0 then map[]
    else
      var u := acc[|acc| - 1];
      BatchMeta(acc[..|acc| - 1])[u.name := FileMeta(u.hash, u.size, |u.rows.GetOr([])|)]
  }

  // ---------------------------------------------------------------------
  // The registry.

  class Registry {
    /** `UPLOADED_DATA` */
    var data: map<string, seq<Record>>
    /** The keys of `UPLOADED_FILES_METADATA` in insertion order. */
    var names: seq<string>
    /** `UPLOADED_FILES_METADATA` */
    var meta: map<string, FileMeta>

    predicate Valid()
      reads this
    {
      KeysInOrder(meta, names)
    }

    constructor ()
      ensures data == map[] && names == [] && meta == map[]
      ensures Valid()
    {
      data, names, meta := map[], [], map[];
    }

    /** `is_duplicate_file`: the first registered file, in insertion order,
        whose hash and size match. */
    method IsDuplicate(hash: string, size: nat) returns (dup: bool, existing: Option<string>)
      requires Valid()
      ensures dup == IsDup(meta, hash, size)
      ensures dup == existing.Some?
      ensures dup ==> exists i :: 0 <= i < |names| && names[i] == existing.value
                        && Matches(meta[names[i]], hash, size)
                        && forall j :: 0 <= j < i ==> !Matches(meta[names[j]], hash, size)
    {
      for i := 0 to |names|
        invariant forall j :: 0 <= j < i ==> !Matches(meta[names[j]], hash, size)
      {
        if Matches(meta[names[i]], hash, size) {
          return true, Some(names[i]);
        }
      }
      assert !IsDup(meta, hash, size) by {
        forall f | f in meta ensures !Matches(meta[f], hash, size) {
          var k :| 0 <= k < |names| && names[k] == f;
        }
      }
      return false, None;
    }

    /** `store_uploaded_data`: append the frame to the user's records and
        merge the batch's file entries into the metadata. */
    method Store(user: string, rows: seq<Record>, batch: map<string, FileMeta>, order: seq<string>)
      requires Valid()
      requires KeysInOrder(batch, order)
      modifies this
      ensures Valid()
      ensures data == old(data)[user := Existing(old(data), user) + rows]
      ensures meta == old(meta) + batch
      ensures |old(names)| <= |names| && names[..|old(names)|] == old(names)
    {
      data := data[user := Existing(data, user) + rows];
      var m, ns := meta, names;
      for i := 0 to |order|
        invariant KeysInOrder(m, ns)
        invariant |names| <= |ns| && ns[..|names|] == names
        invariant forall f :: f in m <==> f in meta || f in order[..i]
        invariant forall f | f in m :: m[f] == if f in order[..i] then batch[f] else meta[f]
      {
        var f := order[i];
        if f !in m {
          ns := ns + [f];
        }
        m := m[f := batch[f]];
        assert order[..i + 1] == order[..i] + [f];
      }
      assert order[..|order|] == order;
      assert m == meta + batch;
      meta, names := m, ns;
    }

    /** `load_uploaded_data` */
    function Load(user: string): seq<Record>
      reads this
    {
      Existing(data, user)
    }

    /** `clear_uploaded_data` */
    method Clear()
      modifies this
      ensures data == map[] && names == [] && meta == map[]
      ensures Valid()
    {
      data, names, meta := map[], [], map[];
    }

    /** `handle_file_upload` for a batch of files; returns how many were new. */
    method HandleUpload(files: seq<Upload>) returns (newFiles: nat)
      requires Valid()
      modifies this
      ensures Valid()
      ensures var acc := Accepted(old(meta), files);
              newFiles == |acc|
              && (|acc| == 0 ==> data == old(data) && meta == old(meta) && names == old(names))
              && (|acc| > 0 ==> data == old(data)[UploadUser := Existing(old(data), UploadUser) + AllRows(acc)]
                                && meta == old(meta) + BatchMeta(acc))
      ensures |old(names)| <= |names| && names[..|old(names)|] == old(names)
    {
      var accepted, batch, order := CheckBatch(files);
      newFiles := |accepted|;
      if |accepted| > 0 {
        Store(UploadUser, AllRows(accepted), batch, order);
      }
    }

    /** The loop of `handle_file_upload`: the files it accepts, in order, and
        their metadata entries with their names in insertion order. */
    method CheckBatch(files: seq<Upload>) returns (accepted: seq<Upload>, batch: map<string, FileMeta>, order: seq<string>)
      requires Valid()
      ensures accepted == Accepted(meta, files)
      ensures batch == BatchMeta(accepted)
      ensures KeysInOrder(batch, order)
    {
      accepted, batch, order := [], map[], [];
      for i := 0 to |files|
        invariant accepted == Accepted(meta, files[..i])
        invariant batch == BatchMeta(accepted)
        invariant KeysInOrder(batch, order)
      {
        var u := files[i];
        AcceptedStep(meta, files, i);
        var dup, _ := IsDuplicate(u.hash, u.size);
        if dup {
          continue;
        }
        if u.rows.None? || |u.rows.value| == 0 {
          continue;
        }
        BatchMetaSnoc(accepted, u);
        accepted := accepted + [u];
        if u.name !in batch {
          order := order + [u.name];
        }
        batch := batch[u.name := FileMeta(u.hash, u.size, |u.rows.value|)];
      }
      assert files[..|files|] == files;
    }
  }

  // ---------------------------------------------------------------------
  // Properties.

  lemma BatchMetaSnoc(acc: seq<Upload>, u: Upload)
    ensures BatchMeta(acc + [u]) == BatchMeta(acc)[u.name := FileMeta(u.hash, u.size, |u.rows.GetOr([])|)]
  {
    assert (acc + [u])[..|acc|] == acc;
  }

  lemma AcceptedStep(meta: map<string, FileMeta>, files: seq<Upload>, i: nat)
    requires i < |files|
    ensures Accepted(meta, files[..i + 1])
            == Accepted(meta, files[..i]) + (if !IsDup(meta, files[i].hash, files[i].size) && Readable(files[i]) then [files[i]] else [])
  {
    assert files[..i + 1][..i] == files[..i];
  }

  /** A batch accepts exactly its readable files whose content is not
      registered. */
  lemma {:induction false} AcceptedExactly(meta: map<string, FileMeta>, files: seq<Upload>)
    ensures forall u :: u in Accepted(meta, files) <==> u in files && Readable(u) && !IsDup(meta, u.hash, u.size)
  {
    if |files| > 0 {
      var n := |files| - 1;
      AcceptedExactly(meta, files[..n]);
      assert files == files[..n] + [files[n]];
    }
  }

  function MetaOf(u: Upload): FileMeta { FileMeta(u.hash, u.size, |u.rows.GetOr([])|) }

  /** The batch metadata holds the entry of the accepted file at `k` when
      every later file of the same name has the same entry. */
  lemma {:induction false} BatchMetaKeepsEntry(acc: seq<Upload>, k: nat)
    requires k < |acc|
    requires forall j :: k < j < |acc| && acc[j].name == acc[k].name ==> MetaOf(acc[j]) == MetaOf(acc[k])
    ensures acc[k].name in BatchMeta(acc) && BatchMeta(acc)[acc[k].name] == MetaOf(acc[k])
  {
    var n := |acc| - 1;
    if k < n {
      BatchMetaKeepsEntry(acc[..n], k);
    }
  }

  /** After a batch is stored, uploading one of its files again is detected
      as a duplicate, provided no other file of the batch had the same name
      (a later file of the same name replaces the earlier entry). */
  lemma StoredFilesAreDuplicates(meta: map<string, FileMeta>, files: seq<Upload>, u: Upload)
    requires u in Accepted(meta, files)
    requires forall v :: v in files && v.name == u.name ==> v == u
    ensures IsDup(meta + BatchMeta(Accepted(meta, files)), u.hash, u.size)
  {
    var acc := Accepted(meta, files);
    AcceptedExactly(meta, files);
    var k :| 0 <= k < |acc| && acc[k] == u;
    forall j | k < j < |acc| && acc[j].name == acc[k].name ensures MetaOf(acc[j]) == MetaOf(acc[k]) {
      assert acc[j] in acc;
    }
    BatchMetaKeepsEntry(acc, k);
    var all := meta + BatchMeta(acc);
    assert all[u.name] == MetaOf(u);
  }

  /** After `clear_uploaded_data`, no upload is a duplicate. */
  lemma ClearedRegistryHasNoDuplicates(hash: string, size: nat)
    ensures !IsDup(map[], hash, size)
  {
  }

  /** Storing twice for the same user appends both frames in order. */
  lemma StoreAppends(data: map<string, seq<Record>>, user: string, a: seq<Record>, b: seq<Record>)
    ensures var d1 := data[user := Existing(data, user) + a];
            Existing(d1[user := Existing(d1, user) + b], user) == Existing(data, user) + a + b
  {
  }

  // ---------------------------------------------------------------------
  // Finding: a batch is checked only against the files of earlier batches.

  /** Two files with the same content in one batch are both accepted, so the
      user's records hold that content twice. */
  lemma SameContentTwiceInOneBatch()
    ensures var r := Record("s", "c", 0.0, 0.0, 0.0, 0.0, 0.0);
            var a := Upload("a.csv", "h", 1, Some([r]));
            var b := Upload("b.csv", "h", 1, Some([r]));
            Accepted(map[], [a, b]) == [a, b] && AllRows(Accepted(map[], [a, b])) == [r, r]
  {
    var r := Record("s", "c", 0.0, 0.0, 0.0, 0.0, 0.0);
    var a := Upload("a.csv", "h", 1, Some([r]));
    var b := Upload("b.csv", "h", 1, Some([r]));
    assert !IsDup(map[], "h", 1);
    assert [a, b][..1] == [a];
    assert [a][..0] == [];
    assert Accepted(map[], [a]) == [a];
    assert AllRows([a]) == [r] by {
      assert AllRows([a][..0]) == [];
    }
    assert [a, b][..1] == [a];
  }

  predicate SeenIn(acc: seq<Upload>, hash: string, size: nat) {
    exists i :: 0 <= i < |acc| && acc[i].hash == hash && acc[i].size == size
  }

  /** The intended check: each file is compared with the registry and with
      the files accepted before it in the same batch. */
  function AcceptedOnce(meta: map<string, FileMeta>, files: seq<Upload>): (acc: seq<Upload>)
    ensures |acc| <= |files|
  {
    if |files| == 0 then []
    else
      var u := files[|files| - 1];
      var prev := AcceptedOnce(meta, files[..|files| - 1]);
      prev + (if !IsDup(meta, u.hash, u.size) && !SeenIn(prev, u.hash, u.size) && Readable(u) then [u] else [])
  }

  /** No two entries share a content hash and size. */
  predicate NoRepeats(acc: seq<Upload>) {
    forall i, j :: 0 <= i < j < |acc| ==> !(acc[i].hash == acc[j].hash && acc[i].size == acc[j].size)
  }

  /** With the intended check every accepted file is readable and new, and
      no content is accepted twice in one batch. */
  lemma {:induction false} AcceptedOnceHasNoRepeats(meta: map<string, FileMeta>, files: seq<Upload>)
    ensures NoRepeats(AcceptedOnce(meta, files))
    ensures forall u :: u in AcceptedOnce(meta, files) ==> u in files && Readable(u) && !IsDup(meta, u.hash, u.size)
  {
    if |files| > 0 {
      var n := |files| - 1;
      var u := files[n];
      var prev := AcceptedOnce(meta, files[..n]);
      AcceptedOnceHasNoRepeats(meta, files[..n]);
      if !IsDup(meta, u.hash, u.size) && !SeenIn(prev, u.hash, u.size) && Readable(u) {
        var acc := prev + [u];
        forall i, j | 0 <= i < j < |acc| ensures !(acc[i].hash == acc[j].hash && acc[i].size == acc[j].size) {
          if j == |prev| {
            assert acc[i] == prev[i];
          } else {
            assert acc[i] == prev[i] && acc[j] == prev[j];
          }
        }
      }
    }
  }
  /** On a batch whose accepted files all differ in content the two checks
      agree: the intended check only refuses the repeats. */
  lemma {:induction false} AcceptedOnceWithoutRepeats(meta: map<string, FileMeta>, files: seq<Upload>)
    requires NoRepeats(Accepted(meta, files))
    ensures AcceptedOnce(meta, files) == Accepted(meta, files)
  {
    if |files| > 0 {
      var n := |files| - 1;
      var u := files[n];
      var prev := Accepted(meta, files[..n]);
      assert Accepted(meta, files) == prev + (if !IsDup(meta, u.hash, u.size) && Readable(u) then [u] else []);
      assert NoRepeats(prev) by {
        forall i, j | 0 <= i < j < |prev| ensures !(prev[i].hash == prev[j].hash && prev[i].size == prev[j].size) {
          assert Accepted(meta, files)[i] == prev[i] && Accepted(meta, files)[j] == prev[j];
        }
      }
      AcceptedOnceWithoutRepeats(meta, files[..n]);
      if !IsDup(meta, u.hash, u.size) && Readable(u) {
        var acc := Accepted(meta, files);
        forall i | 0 <= i < |prev| ensures !(prev[i].hash == u.hash && prev[i].size == u.size) {
          assert acc[i] == prev[i] && acc[|prev|] == u;
        }
      }
    }
  }
}
