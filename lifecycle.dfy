/** The module-level state of the training controller (`dataset`, `model`,
    `etiquetas`, `modeloYaEntrenado`) and what each exported operation does
    to it, as functions from the old state and the outcomes of the calls the
    controller makes into the filesystem, the image codec and the tensor
    engine. The class in TrainController is proved to follow these. */
module Lifecycle {
  import opened Wrappers
  import opened FileNames
  import opened Dataset
  import opened LabelSet
  import opened Prediction

  /** Handle of a layers model built or loaded by the tensor engine. */
  datatype ModelHandle = ModelHandle(handle: nat)

  datatype State = State(
    dataset: seq<Sample>,
    model: Option<ModelHandle>,
    etiquetas: seq<string>,
    modeloYaEntrenado: bool)

  /** The values the module starts with. */
  const Initial: State := State([], None, [], false)

  /** The flag is raised only once a model is present, and no operation
      clears the model. */
  predicate Consistent(s: State) {
    s.modeloYaEntrenado ==> s.model.Some?
  }

  /** Why an operation's promise rejects. */
  datatype Failure =
    | NoImages              // entrenarModelo on an empty dataset
    | EngineFailure         // stack/oneHot, or building, compiling or fitting the model
    | SaveFailure           // one of the two model saves or the two JSON writes
    | ModeloInfoNotDefined  // the ReferenceError of the final return of entrenarModelo
    | NoModel               // predecir without a model
    | ImageDecodeFailure    // sharp cannot decode the image given to predecir

  /** Outcomes of the foreign calls of one training run, in call order. */
  datatype TrainingRun = TrainingRun(
    tensorsOk: bool,
    fitOk: bool,
    saveServerOk: bool,
    saveDownloadOk: bool,
    writeInfoOk: bool,
    writeLabelsOk: bool)

  predicate SavesOk(run: TrainingRun) {
    run.saveServerOk && run.saveDownloadOk && run.writeInfoOk && run.writeLabelsOk
  }

  /** Every foreign call of the run succeeds. */
  predicate RunCompletes(run: TrainingRun) {
    run.tensorsOk && run.fitOk && SavesOk(run)
  }

  /** The fields of the object entrenarModelo means to return that the model
      keeps (the metrics history and the validation accuracy are floats). */
  datatype TrainReport = TrainReport(etiquetas: seq<string>, totalImagenes: nat)

  /** What cargarModeloExistente finds on disk: whether model.json exists,
      the model loadLayersModel yields (None when it throws), and the
      `etiquetas` array of etiquetas.json (None when reading or parsing fails). */
  datatype StoredModel = StoredModel(
    modelJsonExists: bool,
    loaded: Option<ModelHandle>,
    etiquetasFile: Option<seq<string>>)

  /** The data handed to the engine: the sample tensors, the class index of
      each sample and the depth of the one-hot encoding. */
  datatype Batch = Batch(xs: seq<Tensor>, ys: seq<nat>, numClases: nat)

  /** xs, ys and `etiquetas.length` as entrenarModelo builds them: each
      sample's class index names its own label in the derived label set. */
  function PrepareBatch(ds: seq<Sample>): (b: Batch)
    ensures |b.xs| == |b.ys| == |ds|
    ensures b.numClases == |Unique(Labels(ds))|
    ensures forall i :: 0 <= i < |ds| ==>
      b.xs[i] == ds[i].tensor && b.ys[i] < b.numClases &&
      Unique(Labels(ds))[b.ys[i]] == ds[i].etiqueta
  {
    Batch(seq(|ds|, i requires 0 <= i < |ds| => ds[i].tensor),
          LabelIndices(Labels(ds)),
          |Unique(Labels(ds))|)
  }

  /** The one-hot depth handed to the engine is the number of labels the
      training run stores, and the softmax layer is sized by (line 209). */
  lemma PrepareBatchMatchesTraining(s: State, run: TrainingRun, nuevo: ModelHandle)
    requires |s.dataset| > 0
    ensures PrepareBatch(s.dataset).numClases == |EntrenarModeloIntended(s, run, nuevo).0.etiquetas|
    ensures PrepareBatch(s.dataset).numClases == |EntrenarModelo(s, run, nuevo).0.etiquetas|
  {
  }

  /** cargarDatasetLocal: with the root missing nothing changes and the
      answer is false; otherwise the dataset is replaced by the walk's
      samples and the answer says whether there are any. */
  function CargarDatasetLocal(s: State, root: Option<seq<Entry>>): (r: (State, bool))
    ensures root.None? ==> r == (s, false)
    ensures root.Some? ==> r.0 == s.(dataset := r.0.dataset) && r.1 == (|r.0.dataset| > 0)
    ensures root.Some? ==> r.0.dataset == LocalSamples(root.value)
  {
    match root
    case None => (s, false)
    case Some(entries) =>
      var ds := LocalSamples(entries);
      (s.(dataset := ds), |ds| > 0)
  }

  /** procesarImagenes: the dataset is replaced by the uploads' samples. */
  function ProcesarImagenes(s: State, files: seq<SourceFile>): (r: State)
    ensures r.model == s.model && r.etiquetas == s.etiquetas && r.modeloYaEntrenado == s.modeloYaEntrenado
    ensures r.dataset == UploadSamples(files)
    ensures |r.dataset| <= |files|
  {
    s.(dataset := UploadSamples(files))
  }

  /** entrenarModelo as its author meant it: the label set is derived and
      stored first, the new model is stored once the tensors are built, and
      the flag is raised only after fitting and all four saves succeed. */
  function EntrenarModeloIntended(s: State, run: TrainingRun, nuevo: ModelHandle)
    : (r: (State, Result<TrainReport, Failure>))
    ensures r.0.dataset == s.dataset
    ensures |s.dataset| == 0 ==> r == (s, Err(NoImages))
    ensures |s.dataset| > 0 ==> r.0.etiquetas == Unique(Labels(s.dataset))
    ensures r.0.model == if |s.dataset| > 0 && run.tensorsOk then Some(nuevo) else s.model
    ensures r.0.modeloYaEntrenado == (s.modeloYaEntrenado || r.1.Ok?)
    ensures r.1.Ok? <==> |s.dataset| > 0 && RunCompletes(run)
    ensures r.1.Ok? ==> r.1.value == TrainReport(r.0.etiquetas, |s.dataset|)
  {
    if |s.dataset| == 0 then (s, Err(NoImages))
    else
      var s1 := s.(etiquetas := Unique(Labels(s.dataset)));
      if !run.tensorsOk then (s1, Err(EngineFailure))
      else
        var s2 := s1.(model := Some(nuevo));
        if !run.fitOk then (s2, Err(EngineFailure))
        else if !SavesOk(run) then (s2, Err(SaveFailure))
        else (s2.(modeloYaEntrenado := true), Ok(TrainReport(s2.etiquetas, |s.dataset|)))
  }

  /** entrenarModelo as written: the same state changes, but the final
      `return` reads `modeloInfo` outside the block that declares it, so a
      run that gets that far rejects with a ReferenceError. */
  function EntrenarModelo(s: State, run: TrainingRun, nuevo: ModelHandle)
    : (r: (State, Result<TrainReport, Failure>))
    ensures r.0 == EntrenarModeloIntended(s, run, nuevo).0
    ensures |s.dataset| == 0 ==> r == (s, Err(NoImages))
    ensures r.1.Err?
    ensures |s.dataset| > 0 && RunCompletes(run) ==>
      r.1 == Err(ModeloInfoNotDefined) && r.0.modeloYaEntrenado
  {
    var (s1, result) := EntrenarModeloIntended(s, run, nuevo);
    (s1, if result.Ok? then Err(ModeloInfoNotDefined) else result)
  }

  /** cargarModeloExistente: the model is stored as soon as it loads, the
      labels only once etiquetas.json is read; any failure lowers the flag. */
  function CargarModeloExistente(s: State, stored: StoredModel): (r: (State, bool))
    ensures r.0.dataset == s.dataset
    ensures r.1 <==> stored.modelJsonExists && stored.loaded.Some? && stored.etiquetasFile.Some?
    ensures r.1 ==> r.0.model == stored.loaded && r.0.etiquetas == stored.etiquetasFile.value
    ensures !r.1 ==> r.0.etiquetas == s.etiquetas
    ensures r.0.modeloYaEntrenado == r.1
    ensures r.0.model == if stored.modelJsonExists && stored.loaded.Some? then stored.loaded else s.model
  {
    if !stored.modelJsonExists then (s.(modeloYaEntrenado := false), false)
    else match stored.loaded
      case None => (s.(modeloYaEntrenado := false), false)
      case Some(m) =>
        var s1 := s.(model := Some(m));
        match stored.etiquetasFile
        case None => (s1.(modeloYaEntrenado := false), false)
        case Some(ls) => (s1.(etiquetas := ls, modeloYaEntrenado := true), true)
  }

  /** inicializar, branch by branch as written. */
  function Inicializar(s: State, stored: StoredModel, root: Option<seq<Entry>>,
                       run: TrainingRun, nuevo: ModelHandle): (r: (State, Result<bool, Failure>))
    ensures s.modeloYaEntrenado && s.model.Some? ==> r == (s, Ok(true))
    ensures r.1 == Ok(true) ==> r.0.modeloYaEntrenado && r.0.model.Some?
  {
    if s.modeloYaEntrenado && s.model.Some? then (s, Ok(true))
    else
      var (s1, existente) := CargarModeloExistente(s, stored);
      if existente then (s1, Ok(true))
      else if !s1.modeloYaEntrenado then
        var (s2, cargado) := CargarDatasetLocal(s1, root);
        if cargado then
          var (s3, result) := EntrenarModelo(s2, run, nuevo);
          (s3, if result.Ok? then Ok(true) else Err(result.error))
        else (s2, Ok(false))
      else (s1, Ok(true))
  }

  /** predecir: rejects without a model or when the image cannot be decoded;
      otherwise reads the engine's output vector through `etiquetas`. */
  function Predecir(s: State, scores: Option<seq<real>>): (r: Result<Prediccion, Failure>)
    ensures s.model.None? ==> r == Err(NoModel)
    ensures s.model.Some? && scores.None? ==> r == Err(ImageDecodeFailure)
    ensures s.model.Some? && scores.Some? ==> r.Ok? && |r.value.todasLasProbabilidades| == |s.etiquetas|
    ensures s.model.Some? && scores.Some? ==> r == Ok(Readout(s.etiquetas, scores.value))
  {
    if s.model.None? then Err(NoModel)
    else match scores
      case None => Err(ImageDecodeFailure)
      case Some(p) => Ok(Readout(s.etiquetas, p))
  }

  /** The object getInfo returns. */
  datatype Info = Info(
    modeloEntrenado: bool,
    etiquetas: seq<string>,
    totalClases: nat,
    frutasRequeridas: seq<string>,
    modeloYaEntrenado: bool)

  /** getInfo: a read of the state; in a consistent state the flag implies
      that a model is present. */
  function GetInfo(s: State): (info: Info)
    ensures info.totalClases == |info.etiquetas| && info.etiquetas == s.etiquetas
    ensures info.modeloEntrenado <==> s.model.Some?
    ensures info.modeloYaEntrenado == s.modeloYaEntrenado && info.frutasRequeridas == FrutasRequeridas
    ensures Consistent(s) && info.modeloYaEntrenado ==> info.modeloEntrenado
  {
    Info(s.model.Some?, s.etiquetas, |s.etiquetas|, FrutasRequeridas, s.modeloYaEntrenado)
  }

  /** No operation breaks Consistent: the flag is raised only next to a
      model, and no operation clears the model. */
  lemma ConsistentPreserved(s: State, root: Option<seq<Entry>>, files: seq<SourceFile>,
                            run: TrainingRun, nuevo: ModelHandle, stored: StoredModel)
    requires Consistent(s)
    ensures Consistent(CargarDatasetLocal(s, root).0)
    ensures Consistent(ProcesarImagenes(s, files))
    ensures Consistent(EntrenarModelo(s, run, nuevo).0)
    ensures Consistent(CargarModeloExistente(s, stored).0)
    ensures Consistent(Inicializar(s, stored, root, run, nuevo).0)
  {
  }

  /** What inicializar answers, as written: true only when it finds the
      model ready or loads a stored one. Training, even when every call
      succeeds, ends in a rejection, and the final `return true` is never
      reached because a failed load always lowers the flag. */
  lemma InicializarOutcomes(s: State, stored: StoredModel, root: Option<seq<Entry>>,
                             run: TrainingRun, nuevo: ModelHandle)
    ensures var r := Inicializar(s, stored, root, run, nuevo).1;
      (r == Ok(true) <==> (s.modeloYaEntrenado && s.model.Some?) || CargarModeloExistente(s, stored).1) &&
      (r == Ok(false) <==> !(s.modeloYaEntrenado && s.model.Some?) && !CargarModeloExistente(s, stored).1 &&
                           !CargarDatasetLocal(CargarModeloExistente(s, stored).0, root).1)
  {
  }

  /** A second inicializar after one that leaves the flag raised changes
      nothing and answers true, whatever the disk and the dataset hold then. */
  lemma InicializarIdempotent(s: State, stored: StoredModel, root: Option<seq<Entry>>,
                              run: TrainingRun, nuevo: ModelHandle,
                              stored': StoredModel, root': Option<seq<Entry>>,
                              run': TrainingRun, nuevo': ModelHandle)
    requires Consistent(s)
    requires Inicializar(s, stored, root, run, nuevo).0.modeloYaEntrenado
    ensures var s1 := Inicializar(s, stored, root, run, nuevo).0;
      Inicializar(s1, stored', root', run', nuevo') == (s1, Ok(true))
  {
  }

  /** With no stored model and a walk that yields samples, inicializar
      trains on exactly the walk's samples: the labels are the distinct
      folder names that contributed, in first-seen order, all of them
      required fruits; a run whose calls all succeed leaves the new model
      ready and still rejects. */
  lemma {:induction false} InicializarTrainsOnLocalDataset(s: State, stored: StoredModel, entries: seq<Entry>,
                                                           run: TrainingRun, nuevo: ModelHandle)
    requires !(s.modeloYaEntrenado && s.model.Some?)
    requires !CargarModeloExistente(s, stored).1
    requires |LocalSamples(entries)| > 0
    ensures var (s1, r) := Inicializar(s, stored, Some(entries), run, nuevo);
      var ls := Labels(LocalSamples(entries));
      s1.dataset == LocalSamples(entries) &&
      s1.etiquetas == Unique(ls) &&
      NoDuplicates(s1.etiquetas) &&
      (forall e :: e in s1.etiquetas <==> e in ls) &&
      (forall e :: e in s1.etiquetas ==> e in FrutasRequeridas) &&
      (forall i, j :: 0 <= i < j < |s1.etiquetas| ==>
         FirstIndex(ls, s1.etiquetas[i]) < FirstIndex(ls, s1.etiquetas[j])) &&
      r.Err? &&
      (RunCompletes(run) ==> s1.model == Some(nuevo) && s1.modeloYaEntrenado && r == Err(ModeloInfoNotDefined))
  {
    var ds := LocalSamples(entries);
    var ls := Labels(ds);
    LocalSamplesProvenance(entries);
    UniqueFirstSeenOrder(ls);
    forall e | e in Unique(ls) ensures e in FrutasRequeridas {
      var i :| 0 <= i < |ls| && ls[i] == e;
      assert ds[i] in ds;
    }
  }

  /** A model trained by the intended entrenarModelo answers every
      prediction whose output vector has one entry per class with one of the
      dataset's labels, the first holding the largest probability. */
  lemma PredecirAfterTraining(s: State, run: TrainingRun, nuevo: ModelHandle, p: seq<real>)
    requires EntrenarModeloIntended(s, run, nuevo).1.Ok?
    requires |p| == |EntrenarModeloIntended(s, run, nuevo).0.etiquetas|
    ensures var s1 := EntrenarModeloIntended(s, run, nuevo).0;
      var r := Predecir(s1, Some(p));
      r.Ok? && r.value.clase.Some? &&
      r.value.clase == Some(s1.etiquetas[ArgMax(p)]) &&
      r.value.clase.value in Labels(s.dataset)
  {
  }

  /** The final return of entrenarModelo fails even on the best run: one
      sample, every call succeeding. The intended version resolves. */
  lemma EntrenarModeloRejectsCompletedRun(t: Tensor, nuevo: ModelHandle)
    ensures var s := Initial.(dataset := [Sample(t, "uva")]);
      var run := TrainingRun(true, true, true, true, true, true);
      EntrenarModelo(s, run, nuevo).1 == Err(ModeloInfoNotDefined) &&
      EntrenarModelo(s, run, nuevo).0.modeloYaEntrenado &&
      EntrenarModeloIntended(s, run, nuevo).1 == Ok(TrainReport(["uva"], 1))
  {
    var ls := Labels([Sample(t, "uva")]);
    assert ls == ["uva"];
    assert Unique(ls) == ["uva"] by { assert ls[..0] == []; }
  }

  /** After a load that gets the model but not etiquetas.json, predecir's
      guard (a model is present) passes even though the flag is down: from
      the initial state it resolves with no class and an empty distribution. */
  lemma PredecirAfterPartialLoad(m: ModelHandle, p: seq<real>)
    requires |p| > 0
    ensures var s1 := CargarModeloExistente(Initial, StoredModel(true, Some(m), None)).0;
      !s1.modeloYaEntrenado && s1.model == Some(m) &&
      Predecir(s1, Some(p)) == Ok(Prediccion(None, Some(p[ArgMax(p)]), []))
  {
  }

  /** Restarting with a complete stored model: inicializar reaches the
      ready state without walking the dataset, and getInfo reports the
      labels of etiquetas.json. */
  lemma InicializarFromStoredModel(m: ModelHandle, ls: seq<string>, root: Option<seq<Entry>>,
                                   run: TrainingRun, nuevo: ModelHandle)
    ensures var (s1, r) := Inicializar(Initial, StoredModel(true, Some(m), Some(ls)), root, run, nuevo);
      r == Ok(true) && s1.dataset == [] && s1.model == Some(m) &&
      GetInfo(s1).etiquetas == ls && GetInfo(s1).modeloYaEntrenado
  {
  }

  lemma ScenarioLabelSet()
    ensures Unique(["manzana", "manzana", "manzana", "banana", "banana"]) == ["manzana", "banana"]
  {
    var ls := ["manzana", "manzana", "manzana", "banana", "banana"];
    assert Unique(ls[..1]) == ["manzana"] by { assert ls[..1][..0] == []; }
    assert Unique(ls[..2]) == ["manzana"] by { assert ls[..2][..1] == ls[..1]; }
    assert Unique(ls[..3]) == ["manzana"] by { assert ls[..3][..2] == ls[..2]; }
    assert Unique(ls[..4]) == ["manzana", "banana"] by { assert ls[..4][..3] == ls[..3]; }
    assert Unique(ls) == ["manzana", "banana"] by { assert ls[..4] == ls[..|ls| - 1]; }
  }

  /** The walk of a root with a non-required entry between two required
      folders is the two folders' samples, in entry order. */
  lemma TwoFolderWalk(m: seq<SourceFile>, other: Entry, b: seq<SourceFile>)
    requires other.name !in FrutasRequeridas
    ensures LocalSamples([Entry("manzana", true, m), other, Entry("banana", true, b)]) ==
      FolderSamples("manzana", m) + FolderSamples("banana", b)
  {
    var entries := [Entry("manzana", true, m), other, Entry("banana", true, b)];
    assert LocalSamples(entries[..1]) == FolderSamples("manzana", m) by { assert entries[..1][..0] == []; }
    assert LocalSamples(entries[..2]) == FolderSamples("manzana", m) by { assert entries[..2][..1] == entries[..1]; }
    assert entries[..2] == entries[..|entries| - 1];
  }

  /** A dataset root holding manzana/ with three decodable images, a
      folder that is not a required fruit, and banana/ with two decodable
      images: the walk yields five samples and the label set
      ["manzana", "banana"]. */
  lemma TwoFolderScenario(m: seq<SourceFile>, other: Entry, b: seq<SourceFile>)
    requires |m| == 3 && |b| == 2
    requires forall i :: 0 <= i < |m| ==> EsImagenValida(m[i].name) && m[i].decoded.Some?
    requires forall i :: 0 <= i < |b| ==> EsImagenValida(b[i].name) && b[i].decoded.Some?
    requires other.name !in FrutasRequeridas
    ensures var ds := LocalSamples([Entry("manzana", true, m), other, Entry("banana", true, b)]);
      |ds| == 5 && Unique(Labels(ds)) == ["manzana", "banana"]
  {
    TwoFolderWalk(m, other, b);
    RequiredNamesAreLowerCase();
    FolderSamplesAllAccepted("manzana", m);
    FolderSamplesAllAccepted("banana", b);
    var sm := FolderSamples("manzana", m);
    var sb := FolderSamples("banana", b);
    assert Labels(sm + sb) == ["manzana", "manzana", "manzana", "banana", "banana"];
    ScenarioLabelSet();
  }
}
