# Deployment step of the SageMaker/MLflow pipeline, in Dafny

This project models the two pieces of logic of the deployment step of an ML
build-and-deploy pipeline:

- **The stage configuration extender** (`extend_config`, `model_deploy/build.py`).
  It takes a stage configuration document (a JSON object) and checks that its
  `Parameters` section holds a `StageName`; otherwise it raises a configuration
  error. It gives the caller's document an empty `Tags` section when it has
  none. It returns a new document with exactly two sections. In `Parameters`,
  six deployment parameters override the original entries. In `Tags`, six
  deployment tags override the original entries, and the
  `sagemaker:deployment-stage` tag carries the stage name.
  Module `Build` (`build.dfy`). The pure function `Extend` specifies the result.
  The method `ExtendConfig` is the operation on the caller's mutable document
  (class `StageConfig`), and it is proved to return `Extend` of that document.
- **The registry promotion of a model version**
  (`MLflowHandler.transition_model_version_stage`, `model_deploy/mlflow_handler.py`).
  The handler searches the versions of the model name and archives each one
  the search reports in Staging or Production. It then moves its own version to
  the requested stage. Any error stops the run and is logged and swallowed.
  The MLflow registry is modelled in module `Registry` (`registry.dfy`) as the
  class `RegistryClient`. It holds the stage of every version, the order in
  which the server lists versions, whether a search fails, and the set of
  transitions the server refuses. The function `Promotion` specifies the
  registry state after a run. The lemmas beside it prove what the handler
  promises. The handler itself (class `MLflowHandler` in module `Handler`,
  `handler.dfy`) runs the loop, and its postcondition states that it leaves the
  registry in the state `Promotion` gives.
  The same module models the upload key prefix `mlflow_model/<name>-<version>`
  and the result of `prepare_sagemaker_model`: the uploaded location, or
  nothing on any failure.

`wrappers.dfy` holds the `Option` and `Result` datatypes that stand for
Python's `None` and raised exceptions.

Modelling choices:

- JSON values are the datatype `Build.Json`. A stage configuration document is a
  JSON object (`map<string, Json>`). Python's `in` is modelled on every JSON
  value the `Parameters` entry can hold. On an object it tests key membership.
  On an array it tests for an equal string element. On a string it tests for a
  substring. On null, a boolean or a number it raises `TypeError`.
  The `TypeError`s Python raises later are modelled too: indexing a list or a
  string `Parameters` with `"StageName"` (line 29) fails, and so does unpacking a
  `Tags` value that is not an object (line 38). `ExtendSucceedsIff` states the
  success condition for every document; on a document whose sections are
  objects, these cases do not arise (`ExtendFailsIff`).
- The command-line arguments are strings (`type=str`). The model location is
  an `Option<string>`: `prepare_sagemaker_model` returns `None` on failure, and
  that becomes JSON null in `ModelDataLocation`.
- Registry errors are inputs of the registry model:
  `searchFails` makes `search_model_versions` raise. `refused` lists the
  `(version, stage)` transitions the server rejects. A transition of a version
  that does not exist is rejected as well. The `ok` result of
  `RegistryClient.TransitionModelVersionStage` says whether the call returned
  normally.
- The search result is a snapshot of the stages, and the loop tests the stage
  the snapshot reports, as line 63 does.
- `prepare_sagemaker_model` takes the outcome of each external step as a
  parameter. `bucket` is the session's default bucket (nothing when the
  session cannot be created). `downloadOk` covers the download and the archiving.
  `uploadOk` covers the upload. The version lookup fails when the version is not
  registered. The returned location is the one the SageMaker storage client
  reports for one uploaded file: `s3://<bucket>/<prefix>/model.tar.gz`.

## Model

| member | source | states |
|---|---|---|
| `Build.IsSubstring` | model_deploy/build.py:15 | Python's `in` on two strings: true iff the needle occurs at some index of the string |
| `Build.Contains` | model_deploy/build.py:15 | `key in value` raises `TypeError` exactly on null, booleans and numbers. On an object it is key membership; on an array it is membership of an equal string; on a string it is substring occurrence |
| `Build.NewParams` | model_deploy/build.py:20-27 | the new parameters have exactly the six overriding names, and `StageName` is not among them |
| `Build.NewTags` | model_deploy/build.py:28-35 | the new tags have exactly the six overriding names, and the deployment-stage tag carries the given stage name |
| `Build.StageNameCheck` | model_deploy/build.py:15 | the test of line 15: a missing `Parameters` fails it, it raises `TypeError` exactly when `Parameters` is null, a boolean or a number, and on a document whose sections are objects it passes iff `Parameters.StageName` exists |
| `Build.WithTagsDefault` | model_deploy/build.py:17-18 | a document with `Tags` is unchanged; one without gains `Tags: {}` and nothing else; every existing entry keeps its value |
| `Build.Extend` | model_deploy/build.py:10-39 | a result is produced only for a document whose `Parameters` object holds `StageName`. The result has exactly the keys `Parameters` and `Tags`, both objects; other top-level keys are dropped |
| `Build.ExtendConfig` | model_deploy/build.py:10-39 | returns `Extend` of the document as it was on entry. The caller's document gains `Tags: {}` exactly when it passes the check and has no `Tags`; nothing else of it changes |
| `Build.ExtendMissingStageName` | model_deploy/build.py:15-16 | the configuration error is raised exactly when `Parameters` is missing or `in` finds no `StageName` in it |
| `Build.ExtendFailsIff` | model_deploy/build.py:15-16 | on a document whose sections are objects, extending fails iff `Parameters.StageName` is missing, and then with the configuration error |
| `Build.ExtendSucceedsIff` | model_deploy/build.py:15-38 | on every document, extending succeeds iff `Parameters` is an object holding `StageName` and `Tags`, when present, is an object; a document that passes the check but whose `Tags` is not an object fails with `TypeError` when line 38 unpacks it |
| `Build.ExtendParameters` | model_deploy/build.py:20-27 | result parameters = original names plus the six new ones; the six take the new values; every other parameter keeps its original value |
| `Build.ExtendKeepsStageName` | model_deploy/build.py:37 | the result's `StageName` equals the input's, so the result passes the check again and its sections are objects |
| `Build.ExtendTags` | model_deploy/build.py:28-38 | result tags = original tags (none when `Tags` is missing) plus the six new ones. The new ones win, the deployment-stage tag is the input's `StageName`, and other tags keep their values |
| `Build.ExtendIdempotent` | model_deploy/build.py:36-39 | extending the extended document with the same arguments and location gives the same document |
| `Registry.Found` | model_deploy/mlflow_handler.py:62 | every entry of a search result is a registered version of the searched name, reported with its current stage |
| `Registry.FoundComplete` | model_deploy/mlflow_handler.py:62 | the search reports every listed version of the name |
| `Registry.FoundActive` | model_deploy/mlflow_handler.py:62-63 | the search reports a version as Staging/Production iff it is a version of the name in one of those stages |
| `Registry.ArchiveActive` | model_deploy/mlflow_handler.py:62-69 | the archiving loop keeps the set of versions and changes a version's stage only to Archived |
| `Registry.ArchiveActiveStops` | model_deploy/mlflow_handler.py:62-69 | when the loop does not complete, it stopped at the first active entry whose archiving was refused: exactly the active entries before it are Archived, and every later entry keeps its stage |
| `Registry.ArchiveActiveEffect` | model_deploy/mlflow_handler.py:62-69 | the archiving loop keeps the set of versions and moves only reported-active versions, to Archived. It completes iff no archiving is refused, and then all of them are Archived; otherwise it stops at the first refused archiving and later entries keep their stage |
| `Registry.Promotion` | model_deploy/mlflow_handler.py:61-79 | a run keeps the set of versions; a completed run leaves the target in the requested stage; any other version that changes is a version of the target's name and becomes Archived; a failed search changes nothing |
| `Registry.PromotionFrame` | model_deploy/mlflow_handler.py:61-79 | a run completes iff the search succeeds, no active version of the name is refused archiving, and the target exists and is not refused the stage. Whatever happens, a version either keeps its stage, or goes from active to Archived (same name), or is the target set to the stage by a completed run |
| `Registry.PromotionCompleted` | model_deploy/mlflow_handler.py:62-75 | after a completed run the target has the requested stage. Every other version of the name that was in Staging/Production is Archived, and all other versions (None/Archived ones, other names) are unchanged |
| `Registry.PromotionSingleActive` | model_deploy/mlflow_handler.py:62-75 | after a completed run the target is the only version of its name in Staging or Production; promoting to Staging leaves no version of the name in Production |
| `Registry.PromotionFailed` | model_deploy/mlflow_handler.py:61-79 | a failed run never makes the final transition: the target keeps its stage or, if it was active, is Archived. A failed search changes nothing. Otherwise the run stopped at some entry of the search result: exactly the active versions reported before it are Archived and all others keep their stage, and that entry's archiving was refused, or, past the end, the final transition was refused |
| `Registry.PromotionTargetRefused` | model_deploy/mlflow_handler.py:62-79 | archiving comes before the final transition: if only that transition is refused, every formerly active version of the name (the target included) is left Archived |
| `Registry.RegistryClient.GetModelVersion` | model_deploy/mlflow_handler.py:23 | the lookup finds a version iff it is registered, and reports its stage |
| `Registry.RegistryClient.SearchModelVersions` | model_deploy/mlflow_handler.py:62 | the search raises iff the server fails it. Otherwise it reports every version of the name and only those, each with its current stage |
| `Registry.RegistryClient.TransitionModelVersionStage` | model_deploy/mlflow_handler.py:64-68 | a transition succeeds iff the version exists and the server accepts it, and then only that version's stage changes; a refused transition changes nothing |
| `Handler.UploadKeyPrefix` | model_deploy/mlflow_handler.py:43 | the prefix starts with `mlflow_model/` and is as long as the root, name, `-` and version together |
| `Handler.ParseUploadKeyPrefix` | model_deploy/mlflow_handler.py:43 | every prefix it reads back is the prefix of the returned name and dash-free version |
| `Handler.UploadKeyPrefixRoundTrip` | model_deploy/mlflow_handler.py:43 | for a version without `-` (registry versions are numbers), reading the prefix back gives the model name and version |
| `Handler.UploadKeyPrefixInjective` | model_deploy/mlflow_handler.py:43 | two versions with dash-free version strings never share an upload prefix |
| `Handler.UploadKeyPrefixAmbiguous` | model_deploy/mlflow_handler.py:43 | without that restriction the prefix is ambiguous: name `a-1` version `2` and name `a` version `1-2` collide |
| `Handler.MLflowHandler.constructor` | model_deploy/mlflow_handler.py:11-17 | the handler holds the client, the model name and version, and no stage |
| `Handler.MLflowHandler.PrepareSageMakerModel` | model_deploy/mlflow_handler.py:36-54 | a location is returned iff the session, the version lookup, the download and the upload all succeed. It is then the archive uploaded under `mlflow_model/<name>-<version>`; on any failure nothing is returned |
| `Handler.MLflowHandler.TransitionModelVersionStage` | model_deploy/mlflow_handler.py:56-79 | the registry ends in the state `Promotion` specifies for the handled version and stage, through the properties proved of it above. Errors are swallowed |

## Left out

- The command-line entry point of `build.py` (lines 42-87) is not modelled. It parses arguments, reads and writes the JSON files and configures logging. The key order of the written JSON is not modelled either, because maps are unordered.
- Fractional JSON numbers are not modelled; numbers are integers. The extender only copies numbers, so this does not affect what is proved. Documents whose top level is not a JSON object are not modelled.
- Logging is not modelled, in either file.
- `mlflow.set_registry_uri` and the creation of `MlflowClient` are not modelled: the handler is given the registry client that stands for the tracking server. The tracking URI is therefore not a constructor parameter.
- `_download_model_version_files`, `_make_tar_gz_file` and the S3 upload are not modelled beyond the version lookup. They are MLflow artifact download, tar/gzip archiving and network I/O, reduced to the success flags of `PrepareSageMakerModel`. The artifact source URI and the archive contents are not modelled.
- `Handler.MLflowHandler.PrepareSageMakerModel`: the location format `s3://<bucket>/<prefix>/model.tar.gz` is how the SageMaker storage client reports a single uploaded file. That client is not part of this model.
- The requested stage is a `Registry.Stage`. Stage strings the registry server would reject are not modelled. Such a call would fail like any refused transition.
- `Registry.RegistryClient.TransitionModelVersionStage`: a call that raises is modelled as having changed nothing. A call that fails after the server has committed the change cannot be represented, and `Registry.PromotionFailed` relies on this.
- Concurrent promotion runs racing on the same registry are not modelled. The source has no concurrency.
- `model_build/pipelines/mlflow/pipeline.py`, `prepare_data.py` and `source_dir/train.py` are not part of this model. They build SageMaker SDK objects, and they split data and train models through pandas, scikit-learn and MLflow.
