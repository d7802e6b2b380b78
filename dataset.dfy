/** The in-memory dataset and the two ways of filling it: walking the local
    dataset folder (`cargarDatasetLocal` with `procesarImagenLocal`) and
    processing uploaded files (`procesarImagenes`). Reading and decoding a
    file is an outcome given with the file. */
module Dataset {
  import opened Wrappers
  import opened FileNames

  /** Handle of a tensor created by the tensor engine. */
  datatype Tensor = Tensor(handle: nat)

  /** `{ tensor, label }`, one element of the module-level `dataset`
      (`label` is a keyword in Dafny, hence `etiqueta`). */
  datatype Sample = Sample(tensor: Tensor, etiqueta: string)

  /** A file as ingestion meets it: its name and the outcome of reading,
      resizing and converting it (None when any of these throws). */
  datatype SourceFile = SourceFile(name: string, decoded: Option<Tensor>)

  /** An entry of the dataset root as `readdir` lists it, whether `stat`
      reports a directory, and the files `readdir` lists inside it. */
  datatype Entry = Entry(name: string, isDirectory: bool, files: seq<SourceFile>)

  /** `FRUTAS_REQUERIDAS`. */
  const FrutasRequeridas: seq<string> := ["manzana", "banana", "pera", "naranja", "uva"]

  function Labels(ds: seq<Sample>): (ls: seq<string>)
    ensures |ls| == |ds|
    ensures forall i :: 0 <= i < |ds| ==> ls[i] == ds[i].etiqueta
  {
    seq(|ds|, i requires 0 <= i < |ds| => ds[i].etiqueta)
  }

  /** The folders the walk descends into: directories named in FrutasRequeridas. */
  predicate IsWalked(e: Entry) {
    e.isDirectory && e.name in FrutasRequeridas
  }

  /** What `procesarImagenLocal` appends for one file of folder `carpeta`:
      a sample when the name passes `esImagenValida` and decoding succeeds. */
  function LocalSample(carpeta: string, f: SourceFile): (r: seq<Sample>)
    ensures |r| <= 1
    ensures |r| == 1 <==> EsImagenValida(f.name) && f.decoded.Some?
  {
    if EsImagenValida(f.name) && f.decoded.Some? then [Sample(f.decoded.value, Lower(carpeta))] else []
  }

  /** The samples the inner loop appends for one folder, in file order. */
  function FolderSamples(carpeta: string, files: seq<SourceFile>): (r: seq<Sample>)
    ensures |r| <= |files|
    ensures forall i :: 0 <= i < |r| ==> r[i].etiqueta == Lower(carpeta)
  {
    if files == [] then []
    else FolderSamples(carpeta, files[..|files| - 1]) + LocalSample(carpeta, files[|files| - 1])
  }

  /** The samples the outer loop appends for the root's entries, in entry order. */
  function LocalSamples(entries: seq<Entry>): (r: seq<Sample>)
    ensures |r| <= FileCount(entries)
  {
    if entries == [] then []
    else
      var e := entries[|entries| - 1];
      LocalSamples(entries[..|entries| - 1]) + EntrySamples(e)
  }

  /** The number of files listed inside the root's entries. */
  function FileCount(entries: seq<Entry>): nat {
    if entries == [] then 0 else FileCount(entries[..|entries| - 1]) + |entries[|entries| - 1].files|
  }

  /** What one entry of the root contributes: its folder's samples when the
      walk descends into it, nothing otherwise. */
  function EntrySamples(e: Entry): seq<Sample> {
    if IsWalked(e) then FolderSamples(e.name, e.files) else []
  }

  /** What one iteration of `procesarImagenes` appends. */
  function UploadSample(f: SourceFile): (r: seq<Sample>)
    ensures |r| <= 1
    ensures |r| == 1 <==> f.decoded.Some?
    ensures forall s :: s in r ==> Some(s.tensor) == f.decoded && s.etiqueta == ExtraerEtiqueta(f.name)
  {
    if f.decoded.Some? then [Sample(f.decoded.value, ExtraerEtiqueta(f.name))] else []
  }

  /** The samples `procesarImagenes` leaves in the dataset. At most one per
      file, each labelled by its file name's prefix. */
  function UploadSamples(files: seq<SourceFile>): (ds: seq<Sample>)
    ensures |ds| <= |files|
    ensures forall i :: 0 <= i < |ds| ==> '_' !in ds[i].etiqueta
  {
    if files == [] then []
    else UploadSamples(files[..|files| - 1]) + UploadSample(files[|files| - 1])
  }

  /** The required folder names are already lower case, so the label of a
      local sample is exactly its folder's name. */
  lemma RequiredNamesAreLowerCase()
    ensures forall n :: n in FrutasRequeridas ==> Lower(n) == n
  {
  }

  /** s came from a valid image file of a walked folder, decoded to its
      tensor, and carries the folder's name as label. */
  ghost predicate FromWalkedFolder(s: Sample, entries: seq<Entry>) {
    exists e, f :: e in entries && f in e.files && IsWalked(e) &&
      EsImagenValida(f.name) && f.decoded == Some(s.tensor) && s.etiqueta == e.name
  }

  lemma {:induction false} FolderSamplesProvenance(carpeta: string, files: seq<SourceFile>)
    ensures forall s :: s in FolderSamples(carpeta, files) ==>
      s.etiqueta == Lower(carpeta) &&
      exists f :: f in files && EsImagenValida(f.name) && f.decoded == Some(s.tensor)
  {
    if files != [] {
      FolderSamplesProvenance(carpeta, files[..|files| - 1]);
      var last := files[|files| - 1];
      assert last in files;
      forall f | f in files[..|files| - 1] ensures f in files { }
    }
  }

  /** Every sample of the local walk comes from a required folder, carries
      that folder's name and stems from a file with an allowed extension. */
  lemma {:induction false} LocalSamplesProvenance(entries: seq<Entry>)
    ensures forall s :: s in LocalSamples(entries) ==> FromWalkedFolder(s, entries)
    ensures forall s :: s in LocalSamples(entries) ==> s.etiqueta in FrutasRequeridas
  {
    if entries != [] {
      var init, e := entries[..|entries| - 1], entries[|entries| - 1];
      LocalSamplesProvenance(init);
      forall s | s in LocalSamples(init) ensures FromWalkedFolder(s, entries) {
        var e0, f0 :| e0 in init && f0 in e0.files && IsWalked(e0) &&
          EsImagenValida(f0.name) && f0.decoded == Some(s.tensor) && s.etiqueta == e0.name;
        assert e0 in entries;
      }
      if IsWalked(e) {
        FolderSamplesProvenance(e.name, e.files);
        RequiredNamesAreLowerCase();
        assert e in entries;
      }
    }
  }

  /** When every file of a folder passes the check and decodes, the folder
      contributes one sample per file, in file order. */
  lemma {:induction false} FolderSamplesAllAccepted(carpeta: string, files: seq<SourceFile>)
    requires forall i :: 0 <= i < |files| ==> EsImagenValida(files[i].name) && files[i].decoded.Some?
    ensures |FolderSamples(carpeta, files)| == |files|
    ensures forall i :: 0 <= i < |files| ==>
      FolderSamples(carpeta, files)[i] == Sample(files[i].decoded.value, Lower(carpeta))
  {
    if files != [] {
      FolderSamplesAllAccepted(carpeta, files[..|files| - 1]);
    }
  }

  /** Walking a folder distributes over concatenation of its file list. */
  lemma {:induction false} FolderSamplesAppend(carpeta: string, a: seq<SourceFile>, b: seq<SourceFile>)
    ensures FolderSamples(carpeta, a + b) == FolderSamples(carpeta, a) + FolderSamples(carpeta, b)
    decreases |b|
  {
    if b != [] {
      var b0 := b[..|b| - 1];
      assert (a + b)[..|a + b| - 1] == a + b0;
      FolderSamplesAppend(carpeta, a, b0);
    } else {
      assert a + b == a;
    }
  }

  /** Walking the root distributes over concatenation of its entries. */
  lemma {:induction false} LocalSamplesAppend(a: seq<Entry>, b: seq<Entry>)
    ensures LocalSamples(a + b) == LocalSamples(a) + LocalSamples(b)
    decreases |b|
  {
    if b != [] {
      var b0 := b[..|b| - 1];
      assert (a + b)[..|a + b| - 1] == a + b0;
      LocalSamplesAppend(a, b0);
    } else {
      assert a + b == a;
    }
  }

  /** Samples follow entry order: an entry contributes its samples after
      those of every earlier entry and before those of any later one. */
  lemma LocalSamplesOrder(front: seq<Entry>, e: Entry, back: seq<Entry>)
    ensures LocalSamples(front + [e] + back) == LocalSamples(front) + EntrySamples(e) + LocalSamples(back)
  {
    LocalSamplesAppend(front + [e], back);
    assert (front + [e])[..|front + [e]| - 1] == front;
  }

  /** Every valid image of a folder that decodes yields its sample. */
  lemma {:induction false} FolderSamplesComplete(carpeta: string, files: seq<SourceFile>, f: SourceFile)
    requires f in files && EsImagenValida(f.name) && f.decoded.Some?
    ensures Sample(f.decoded.value, Lower(carpeta)) in FolderSamples(carpeta, files)
  {
    var init, last := files[..|files| - 1], files[|files| - 1];
    if f != last {
      assert files == init + [last];
      FolderSamplesComplete(carpeta, init, f);
    }
  }

  /** Completeness of the walk: every valid, decodable image of a required
      folder is in the dataset, labelled by its folder's name. */
  lemma {:induction false} LocalSamplesComplete(entries: seq<Entry>, e: Entry, f: SourceFile)
    requires e in entries && IsWalked(e)
    requires f in e.files && EsImagenValida(f.name) && f.decoded.Some?
    ensures Sample(f.decoded.value, e.name) in LocalSamples(entries)
  {
    var init, last := entries[..|entries| - 1], entries[|entries| - 1];
    if e == last {
      FolderSamplesComplete(e.name, e.files, f);
      RequiredNamesAreLowerCase();
    } else {
      assert entries == init + [last];
      LocalSamplesComplete(init, e, f);
    }
  }

  /** Processing uploads distributes over concatenation: samples follow file order. */
  lemma {:induction false} UploadSamplesAppend(a: seq<SourceFile>, b: seq<SourceFile>)
    ensures UploadSamples(a + b) == UploadSamples(a) + UploadSamples(b)
    decreases |b|
  {
    if b != [] {
      var b0 := b[..|b| - 1];
      assert (a + b)[..|a + b| - 1] == a + b0;
      UploadSamplesAppend(a, b0);
    } else {
      assert a + b == a;
    }
  }

  /** Every uploaded sample is a decoded file labelled by extraerEtiqueta of its name. */
  lemma {:induction false} UploadSamplesProvenance(files: seq<SourceFile>)
    ensures forall s :: s in UploadSamples(files) ==>
      exists f :: f in files && f.decoded == Some(s.tensor) && s.etiqueta == ExtraerEtiqueta(f.name)
  {
    if files != [] {
      UploadSamplesProvenance(files[..|files| - 1]);
      assert files[|files| - 1] in files;
      forall f | f in files[..|files| - 1] ensures f in files { }
    }
  }

  /** When every file decodes, there is one sample per file, in file order,
      labelled by extraerEtiqueta of the file's name. */
  lemma {:induction false} UploadSamplesAllDecoded(files: seq<SourceFile>)
    requires forall i :: 0 <= i < |files| ==> files[i].decoded.Some?
    ensures |UploadSamples(files)| == |files|
    ensures forall i :: 0 <= i < |files| ==>
      UploadSamples(files)[i] == Sample(files[i].decoded.value, ExtraerEtiqueta(files[i].name))
  {
    if files != [] {
      UploadSamplesAllDecoded(files[..|files| - 1]);
    }
  }
}
