/** The training controller as the program has it: one object holding the
    module-level variables, with one method per exported operation. Each
    method takes the outcomes of the filesystem, image-codec and
    tensor-engine calls it makes as parameters, and is proved to change the
    state exactly as the matching function of Lifecycle says. */
module TrainController {
  import opened Wrappers
  import opened FileNames
  import opened Dataset
  import opened LabelSet
  import opened Prediction
  import opened Lifecycle

  class Controller {
    var dataset: seq<Sample>
    var model: Option<ModelHandle>
    var etiquetas: seq<string>
    var modeloYaEntrenado: bool

    /** The fields as one value. */
    function State(): State
      reads this
    {
      Lifecycle.State(dataset, model, etiquetas, modeloYaEntrenado)
    }

    ghost predicate Valid()
      reads this
    {
      Consistent(State())
    }

    /** The module's initial values. */
    constructor ()
      ensures Valid() && State() == Initial
    {
      dataset := [];
      model := None;
      etiquetas := [];
      modeloYaEntrenado := false;
    }

    /** procesarImagenLocal: appends the decoded image with the lower-cased
        folder name as label; a failure to read or decode is swallowed. */
    method ProcesarImagenLocal(archivo: SourceFile, etiqueta: string)
      modifies this`dataset
      ensures dataset == old(dataset) +
        (if archivo.decoded.Some? then [Sample(archivo.decoded.value, Lower(etiqueta))] else [])
    {
      match archivo.decoded
      case None =>
      case Some(tensor) =>
        dataset := dataset + [Sample(tensor, Lower(etiqueta))];
    }

    /** The inner loop of cargarDatasetLocal: every file of one required
        folder that passes esImagenValida goes to procesarImagenLocal. */
    method CargarCarpeta(carpeta: string, archivos: seq<SourceFile>)
      modifies this`dataset
      ensures dataset == old(dataset) + FolderSamples(carpeta, archivos)
    {
      var j := 0;
      while j < |archivos|
        invariant 0 <= j <= |archivos|
        invariant dataset == old(dataset) + FolderSamples(carpeta, archivos[..j])
      {
        var archivo := archivos[j];
        assert archivos[..j + 1][..j] == archivos[..j];
        if EsImagenValida(archivo.name) {
          ProcesarImagenLocal(archivo, carpeta);
        }
        j := j + 1;
      }
      assert archivos[..j] == archivos;
    }

    /** cargarDatasetLocal over the root's listing (None when `fs.access`
        fails). */
    method CargarDatasetLocal(root: Option<seq<Entry>>) returns (ok: bool)
      requires Valid()
      modifies this
      ensures Valid()
      ensures (State(), ok) == Lifecycle.CargarDatasetLocal(old(State()), root)
    {
      if root.None? {
        return false;
      }
      var carpetas := root.value;
      dataset := [];
      var i := 0;
      while i < |carpetas|
        invariant 0 <= i <= |carpetas|
        invariant dataset == LocalSamples(carpetas[..i])
        invariant model == old(model) && etiquetas == old(etiquetas)
        invariant modeloYaEntrenado == old(modeloYaEntrenado)
      {
        var carpeta := carpetas[i];
        assert carpetas[..i + 1][..i] == carpetas[..i];
        if carpeta.isDirectory && carpeta.name in FrutasRequeridas {
          CargarCarpeta(carpeta.name, carpeta.files);
        }
        assert dataset == LocalSamples(carpetas[..i + 1]);
        i := i + 1;
      }
      assert carpetas[..i] == carpetas;
      ok := |dataset| > 0;
    }

    /** procesarImagenes: empties the dataset, then appends one sample per
        upload that decodes, labelled by extraerEtiqueta of its name. */
    method ProcesarImagenes(files: seq<SourceFile>)
      requires Valid()
      modifies this
      ensures Valid()
      ensures State() == Lifecycle.ProcesarImagenes(old(State()), files)
    {
      dataset := [];
      var i := 0;
      while i < |files|
        invariant 0 <= i <= |files|
        invariant dataset == UploadSamples(files[..i])
        invariant model == old(model) && etiquetas == old(etiquetas)
        invariant modeloYaEntrenado == old(modeloYaEntrenado)
      {
        var file := files[i];
        assert files[..i + 1][..i] == files[..i];
        if file.decoded.Some? {
          var etiqueta := ExtraerEtiqueta(file.name);
          dataset := dataset + [Sample(file.decoded.value, etiqueta)];
        }
        i := i + 1;
      }
      assert files[..i] == files;
    }

    /** entrenarModelo as written, with `nuevo` the model tf.sequential()
        creates and `run` the outcomes of the engine and filesystem calls. */
    method EntrenarModelo(run: TrainingRun, nuevo: ModelHandle) returns (r: Result<TrainReport, Failure>)
      requires Valid()
      modifies this
      ensures Valid()
      ensures (State(), r) == Lifecycle.EntrenarModelo(old(State()), run, nuevo)
    {
      if |dataset| == 0 {
        return Err(NoImages);
      }
      etiquetas := Unique(Labels(dataset));
      if !run.tensorsOk {
        return Err(EngineFailure);
      }
      model := Some(nuevo);
      if !run.fitOk {
        return Err(EngineFailure);
      }
      if !run.saveServerOk || !run.saveDownloadOk || !run.writeInfoOk || !run.writeLabelsOk {
        return Err(SaveFailure);
      }
      modeloYaEntrenado := true;
      r := Err(ModeloInfoNotDefined);
    }

    /** cargarModeloExistente over what the disk holds. */
    method CargarModeloExistente(stored: StoredModel) returns (ok: bool)
      requires Valid()
      modifies this
      ensures Valid()
      ensures (State(), ok) == Lifecycle.CargarModeloExistente(old(State()), stored)
    {
      if !stored.modelJsonExists || stored.loaded.None? {
        modeloYaEntrenado := false;
        return false;
      }
      model := stored.loaded;
      if stored.etiquetasFile.None? {
        modeloYaEntrenado := false;
        return false;
      }
      etiquetas := stored.etiquetasFile.value;
      modeloYaEntrenado := true;
      ok := true;
    }

    /** inicializar: the ready check, then the stored model, then the local
        dataset and a training run. */
    method Inicializar(stored: StoredModel, root: Option<seq<Entry>>, run: TrainingRun, nuevo: ModelHandle)
      returns (r: Result<bool, Failure>)
      requires Valid()
      modifies this
      ensures Valid()
      ensures (State(), r) == Lifecycle.Inicializar(old(State()), stored, root, run, nuevo)
    {
      if modeloYaEntrenado && model.Some? {
        return Ok(true);
      }
      var modeloExistente := CargarModeloExistente(stored);
      if modeloExistente {
        return Ok(true);
      }
      if !modeloYaEntrenado {
        var datasetCargado := CargarDatasetLocal(root);
        if datasetCargado {
          var result := EntrenarModelo(run, nuevo);
          if result.Err? {
            return Err(result.error);
          }
          return Ok(true);
        } else {
          return Ok(false);
        }
      }
      r := Ok(true);
    }

    /** predecir, with `scores` the engine's output for the image (None when
        the image cannot be decoded). */
    method Predecir(scores: Option<seq<real>>) returns (r: Result<Prediccion, Failure>)
      ensures model.None? ==> r == Err(NoModel)
      ensures r == Lifecycle.Predecir(State(), scores)
    {
      if model.None? {
        return Err(NoModel);
      }
      match scores
      case None =>
        r := Err(ImageDecodeFailure);
      case Some(probabilidades) =>
        r := Ok(Readout(etiquetas, probabilidades));
    }

    /** getInfo. */
    function GetInfo(): Info
      reads this
    {
      Lifecycle.GetInfo(State())
    }
  }
}
