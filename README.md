# Fruit classifier training controller, modelled in Dafny

This project models the controller of a small web service that trains and
serves an image classifier for five fruits (`manzana`, `banana`, `pera`,
`naranja`, `uva`): `src/controllers/train.controller.js`. The controller
keeps four module-level variables: the in-memory `dataset` of
`{tensor, label}` samples, the current `model`, the label list `etiquetas`
and the flag `modeloYaEntrenado`. Its operations fill the dataset from the
local `dataset/frutas` tree or from uploaded files, train a model, load a
stored model, predict and report status. `inicializar` is exported as the
start-up entry point, but the server as shown never calls it: `src/index.js`
only creates `./models` and listens, and the routes call only
`procesarImagenes`, `entrenarModelo`, `predecir` and `getInfo`.

The model has these parts:

- `FileNames` (file_names.dfy): the extension allow-list `esImagenValida`
  and the upload label `extraerEtiqueta`, over ASCII lower-casing.
- `LabelSet` (label_set.dfy): the label set of a training run. It holds the
  distinct labels in first-seen order (`[...new Set(...)]`), the
  label-to-index object, and the class index of each sample (`ys`).
- `Prediction` (prediction.dfy): `indexOf(Math.max(...))` and the object
  `predecir` resolves with.
- `Dataset` (dataset.dfy): samples, directory entries and files, and the
  sample sequences the two ingestion loops produce.
- `Lifecycle` (lifecycle.dfy): the four variables as one value. Each
  operation is a function from the old state and the outcomes of its
  foreign calls to the new state and its result. The lemmas about the
  operations are here.
- `TrainController` (train_controller.dfy): class `Controller` with the four
  variables as fields and one method per operation. The methods use the
  source's loops and assignment order. Each is proved to produce the
  state and result of the matching `Lifecycle` function.

The filesystem, the image codec and the tensor engine are outside the model.
What they answer is passed in as data:

- a directory listing is a `seq<Entry>`;
- `stat().isDirectory()` is a field of `Entry`;
- the outcome of reading and decoding a file is `Option<Tensor>`;
- the disk state seen by `cargarModeloExistente` is a `StoredModel`;
- the success of each engine and save call in a training run is a
  `TrainingRun`;
- the engine's output vector for a prediction is `Option<seq<real>>`.

Tensors and models are handles (`Tensor`, `ModelHandle`).

The program behaves in three ways that deserve a note. The model follows
the code in each.

- `entrenarModelo` stores the new label list (line 148) and the new model
  (line 174) before fitting and saving. A failed run therefore still
  changes them. The flag is raised only after all four saves (line 286).
- `cargarModeloExistente` stores the model (line 319) before reading
  `etiquetas.json`. When that read fails, the model is set, the flag is
  down and `etiquetas` keeps its old value. `predecir` checks only the
  model, so it answers in that state (`Lifecycle.PredecirAfterPartialLoad`).
- There is no guard against a second training run while one is in
  progress. The boolean flag is the only guard, and it only makes
  `inicializar` skip work. There is no archive export either.

## Model

| member | source | states |
|---|---|---|
| `FileNames.Lower` | src/controllers/train.controller.js:83 | `toLowerCase` keeps the length and maps each character on its own, upper-case ASCII letters to lower case |
| `FileNames.EsImagenValida` | src/controllers/train.controller.js:81-84 | a name is accepted exactly when its lower-cased form ends with one of the five listed extensions (`EsImagenValidaByExtension` gives the meaning in terms of the extension) |
| `FileNames.SomeEndsWith` | src/controllers/train.controller.js:83 | `exts.some(ext => s.endsWith(ext))` is true exactly when some listed extension is a suffix of s |
| `FileNames.EsImagenValidaByExtension` | src/controllers/train.controller.js:81-84 | a name is accepted iff the text after the last '.' of its lower-cased form is jpg, jpeg, png, bmp or gif; acceptance does not depend on letter case |
| `FileNames.AllowedExtensionIsValid` | src/controllers/train.controller.js:81-84 | every name ending in one of the five listed extensions is accepted, whatever precedes it |
| `FileNames.PrefixBefore` | src/controllers/train.controller.js:133 | `split(sep)[0]` is the prefix of s that holds no sep and is followed by sep or by the end of s |
| `FileNames.ExtraerEtiqueta` | src/controllers/train.controller.js:132-134 | the label is the lower-cased prefix before the first '_'; it holds no '_'; a name without '_' gives the whole lower-cased name |
| `LabelSet.Unique` | src/controllers/train.controller.js:148 | the derived labels have no duplicates and are exactly the labels occurring in the dataset |
| `LabelSet.UniqueFirstSeenOrder` | src/controllers/train.controller.js:148 | the derived labels are ordered by their first occurrence in the dataset |
| `LabelSet.UniqueOfDistinct` | src/controllers/train.controller.js:148 | labels that are already distinct are kept as they are, in order |
| `LabelSet.IndexMap` | src/controllers/train.controller.js:149 | the label-to-index object has exactly the labels as keys, maps each key to a position holding it, and for distinct labels maps `etiquetas[i]` to i |
| `LabelSet.LabelIndices` | src/controllers/train.controller.js:167 | one index per sample, each below the number of classes and naming that sample's own label in the label set |
| `Prediction.Max` | src/controllers/train.controller.js:398 | `Math.max` of a non-empty vector is one of its values and no value exceeds it |
| `Prediction.IndexOf` | src/controllers/train.controller.js:398 | `indexOf` is -1 exactly when the value is absent, otherwise the first position holding it |
| `Prediction.ArgMax` | src/controllers/train.controller.js:398 | the chosen index holds a largest value and every earlier index a smaller one; -1 for an empty vector |
| `Prediction.Readout` | src/controllers/train.controller.js:403-410 | one (label, probability) pair per label in label order, the probability undefined past the vector's end; the class is the label at the first maximum; nothing is chosen for an empty vector; whenever k is the first maximum, the class is the label at k (undefined when k is past the labels) and the probability is the value at k |
| `Dataset.RequiredNamesAreLowerCase` | src/controllers/train.controller.js:13 | the required fruit names are lower case, so lower-casing a folder label changes nothing |
| `Dataset.LocalSample` | src/controllers/train.controller.js:89-103 | one file gives at most one sample, and exactly one when its name passes esImagenValida and it decodes (`FolderSamplesProvenance` states the content) |
| `Dataset.FolderSamples` | src/controllers/train.controller.js:50-62 | a folder gives at most one sample per file, each labelled by the lower-cased folder name |
| `Dataset.LocalSamples` | src/controllers/train.controller.js:41-67 | the walk gives at most one sample per file listed in the root's entries (`LocalSamplesProvenance`, `LocalSamplesComplete` and `LocalSamplesOrder` give provenance, completeness and order) |
| `Dataset.UploadSample` | src/controllers/train.controller.js:113-125 | one upload gives at most one sample, exactly one when it decodes, holding its tensor and extraerEtiqueta of its name |
| `Dataset.FolderSamplesAppend` | src/controllers/train.controller.js:50-62 | walking a concatenation of file lists gives the concatenation of the samples, so samples follow file order |
| `Dataset.LocalSamplesAppend` | src/controllers/train.controller.js:41-67 | walking a concatenation of entry lists gives the concatenation of the samples |
| `Dataset.LocalSamplesOrder` | src/controllers/train.controller.js:41-67 | for a root listing `front + [e] + back`, the dataset is the samples of `front`, then those of e (its folder's samples when the walk descends into it, none otherwise), then those of `back` |
| `Dataset.FolderSamplesComplete` | src/controllers/train.controller.js:50-54 | every file of a folder that passes the allow-list and decodes yields its sample, labelled by the lower-cased folder name |
| `Dataset.LocalSamplesComplete` | src/controllers/train.controller.js:41-67 | every allowed, decodable file of a directory named in the required list is in the dataset, labelled by the folder's name |
| `Dataset.FolderSamplesProvenance` | src/controllers/train.controller.js:50-54 | every sample of a folder carries the lower-cased folder name and comes from a decoded file whose name passes the allow-list |
| `Dataset.FolderSamplesAllAccepted` | src/controllers/train.controller.js:50-62 | a folder whose files all pass and decode contributes one sample per file, in file order |
| `Dataset.LocalSamplesProvenance` | src/controllers/train.controller.js:41-67 | every sample of the walk comes from a directory named in the required list, carries that name and stems from an allowed, decoded file |
| `Dataset.UploadSamples` | src/controllers/train.controller.js:110-126 | at most one sample per uploaded file, and no label holds '_' |
| `Dataset.UploadSamplesAppend` | src/controllers/train.controller.js:112-126 | processing a concatenation of uploads gives the concatenation of the samples, so samples follow file order |
| `Dataset.UploadSamplesProvenance` | src/controllers/train.controller.js:121-122 | every uploaded sample is a decoded file labelled by extraerEtiqueta of its name |
| `Dataset.UploadSamplesAllDecoded` | src/controllers/train.controller.js:112-126 | when every upload decodes, sample i is file i's tensor with extraerEtiqueta of file i's name |
| `Lifecycle.PrepareBatch` | src/controllers/train.controller.js:166-170 | xs are the sample tensors in order; each ys entry is below the one-hot depth `etiquetas.length` and names its sample's label |
| `Lifecycle.PrepareBatchMatchesTraining` | src/controllers/train.controller.js:148-170 | the one-hot depth of the batch equals the number of labels the training run stores |
| `Lifecycle.CargarDatasetLocal` | src/controllers/train.controller.js:18-76 | a missing root leaves the state unchanged and answers false; otherwise the dataset becomes the walk's samples, nothing else changes, and the answer is whether the dataset is non-empty |
| `Lifecycle.ProcesarImagenes` | src/controllers/train.controller.js:108-127 | only the dataset changes, and it becomes the upload samples of the files, no more samples than files |
| `Lifecycle.EntrenarModeloIntended` | src/controllers/train.controller.js:139-290 | an empty dataset rejects with no change; otherwise the labels are replaced before anything can fail, the model once the tensors are built, and the flag is raised exactly when every call succeeds, with a report of the labels and the sample count |
| `Lifecycle.EntrenarModelo` | src/controllers/train.controller.js:303-308 | the same state change as the intended version, but the promise always rejects, with the ReferenceError when every call succeeded |
| `Lifecycle.CargarModeloExistente` | src/controllers/train.controller.js:314-339 | succeeds iff model.json exists, the model loads and etiquetas.json is read; on success the model and labels come from disk; the model is replaced whenever model.json exists and loads, even if the labels then fail; otherwise it is kept; the flag ends equal to the answer; a failure keeps the labels |
| `Lifecycle.Inicializar` | src/controllers/train.controller.js:344-379 | a ready state is left alone with answer true; an answer true always leaves the flag raised with a model present |
| `Lifecycle.Predecir` | src/controllers/train.controller.js:384-411 | rejects without a model, rejects when the image cannot be decoded, otherwise resolves with the read-out of the engine's vector against the current labels, one entry per label |
| `Lifecycle.GetInfo` | src/controllers/train.controller.js:416-424 | reports the flag, whether a model is present, the labels and their count, and the required fruit list; in a consistent state the flag implies a model |
| `Lifecycle.ConsistentPreserved` | src/controllers/train.controller.js:7-10 | no operation raises the flag without a model being present |
| `Lifecycle.InicializarOutcomes` | src/controllers/train.controller.js:344-379 | the answer is true only when the model was ready or a stored model loaded, and false only when the load and the walk both failed; the final `return true` is unreachable |
| `Lifecycle.InicializarIdempotent` | src/controllers/train.controller.js:348-352 | once an initialisation leaves the flag raised, a second one changes nothing and answers true |
| `Lifecycle.InicializarTrainsOnLocalDataset` | src/controllers/train.controller.js:360-367 | without a stored model, training runs on the walk's samples; the labels are the distinct contributing folder names in first-seen order, all required fruits; a fully successful run leaves the new model ready but the call rejects |
| `Lifecycle.InicializarFromStoredModel` | src/controllers/train.controller.js:354-358 | from the initial state, with a complete stored model the service becomes ready without walking the dataset, and getInfo reports the stored labels |
| `Lifecycle.EntrenarModeloRejectsCompletedRun` | src/controllers/train.controller.js:303-308 | on a one-sample dataset with every call succeeding, the written version rejects with the ReferenceError after raising the flag, and the intended version resolves |
| `Lifecycle.PredecirAfterTraining` | src/controllers/train.controller.js:396-410 | after a successful training, a prediction with one probability per class names a label of the dataset, the one at the first maximum |
| `Lifecycle.PredecirAfterPartialLoad` | src/controllers/train.controller.js:319-336 | a load that fails at etiquetas.json leaves the model set and the flag down, and predecir then resolves with no class and an empty distribution |
| `Lifecycle.TwoFolderScenario` | src/controllers/train.controller.js:41-67 | manzana/ with three images, banana/ with two and a folder outside the list give five samples and the labels ["manzana", "banana"] |
| `TrainController.Controller.constructor` | src/controllers/train.controller.js:7-10 | the initial values: empty dataset, no model, no labels, flag down |
| `TrainController.Controller.ProcesarImagenLocal` | src/controllers/train.controller.js:89-103 | appends the decoded image with the lower-cased folder name, or nothing when decoding fails |
| `TrainController.Controller.CargarCarpeta` | src/controllers/train.controller.js:50-62 | the inner loop appends exactly the folder's samples to the dataset |
| `TrainController.Controller.CargarDatasetLocal` | src/controllers/train.controller.js:18-76 | the nested loops leave exactly the state `Lifecycle.CargarDatasetLocal` gives |
| `TrainController.Controller.ProcesarImagenes` | src/controllers/train.controller.js:108-127 | the loop leaves exactly the state `Lifecycle.ProcesarImagenes` gives |
| `TrainController.Controller.EntrenarModelo` | src/controllers/train.controller.js:139-309 | the state and result are those of `Lifecycle.EntrenarModelo` |
| `TrainController.Controller.CargarModeloExistente` | src/controllers/train.controller.js:314-339 | the state and answer are those of `Lifecycle.CargarModeloExistente` |
| `TrainController.Controller.Inicializar` | src/controllers/train.controller.js:344-379 | calling the other methods in the source's order gives the state and answer of `Lifecycle.Inicializar` |
| `TrainController.Controller.Predecir` | src/controllers/train.controller.js:384-411 | rejects when there is no model; otherwise the result of `Lifecycle.Predecir` on the current state |

## Left out

- The tensor engine is not modelled. This covers tensor construction and normalisation, `stack`, `oneHot`, the layer architecture, `compile`, `fit`, `predict`, `save`, `loadLayersModel` and `dispose`. Only whether each call succeeds, and the handles they yield, enter the model.
- Image decoding and resizing by sharp is a foreign codec. Only its success or failure is modelled.
- Filesystem calls are inputs: `access`, `readdir`, `stat`, `readFile` and the JSON writes. What the writes put on disk is not part of the state.
- A rejection from `stat` or from `readdir` on a folder is not modelled. The program would reject `cargarDatasetLocal` there, leaving the dataset partly filled.
- A rejection from `readdir` on the root (line 31) is not modelled. It comes after the dataset was emptied (line 30), so the program would reject with an empty dataset.
- Tensor disposal (line 295) is not modelled. The disposed sample tensors stay referenced by `dataset`, and a second training run on the same dataset would use them.
- An `etiquetas.json` whose `etiquetas` is not an array of strings is not modelled.
- Floating-point values are not modelled: the metrics history, the validation accuracy in the report and `modelo-info.json`, timings and `toFixed` formatting.
- Probabilities are reals, so NaN and -Infinity are not modelled. The sums and ranges of probabilities are not stated.
- `model.predict` failing on a badly shaped input is not modelled.
- Console logging is not modelled. That includes the per-folder counters `contadorPorClase`, which are only printed, and the missing-fruit warnings.
- Interleaving of simultaneous asynchronous requests is not modelled. The program has no guard against it.
- The Express routes, multer's upload limits, the browser page and the server bootstrap are not part of this model.
- FileNames.Lower: lower-cases ASCII letters only, while `toLowerCase` also maps non-ASCII letters. Names and labels outside ASCII are therefore not modelled faithfully.

## Findings

| source | as written | input that shows it | evidently intended | confidence | as-written member | corrected member |
|---|---|---|---|---|---|---|
| src/controllers/train.controller.js:303-308 | the final `return` reads `modeloInfo.precision`, but `modeloInfo` is declared with `const` inside the `try` block (line 263). After the flag is raised and the tensors are disposed, the return throws a ReferenceError, so `entrenarModelo`, the training route and a training `inicializar` always reject | a non-empty dataset with every engine call and save succeeding (`Lifecycle.EntrenarModeloRejectsCompletedRun`) | resolve with the labels, the history, the sample count and the precision | high; not executed | `Lifecycle.EntrenarModelo` | `Lifecycle.EntrenarModeloIntended` |

`Lifecycle.EntrenarModelo` is defined from `Lifecycle.EntrenarModeloIntended`: both give the same state and differ only in the result. The controller class and `Lifecycle.Inicializar` keep the as-written result, because that is what the program does.
