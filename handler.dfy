/** `MLflowHandler` of `model_deploy/mlflow_handler.py`: it packages one
    registered model version for deployment and promotes it to a stage,
    archiving the versions of the same model that were in Staging or
    Production. */
module Handler {
  import opened Wrappers
  import opened Registry

  /** The folder of the bucket under which the model archives are uploaded. */
  const UploadKeyRoot: string := "mlflow_model/"

  /** The name of the uploaded archive: the base name of the scratch file
      `/tmp/model.tar.gz` the archive is written to. */
  const ArchiveFileName: string := "model.tar.gz"

  /** The key prefix under which version `version` of model `name` is
      uploaded (line 43). */
  function UploadKeyPrefix(name: string, version: string): (p: string)
    ensures |p| == |UploadKeyRoot| + |name| + 1 + |version|
    ensures p[..|UploadKeyRoot|] == UploadKeyRoot
  {
    UploadKeyRoot + name + "-" + version
  }

  /** The location the storage client reports for a single file uploaded to
      `bucket` under `prefix`. */
  function UploadLocation(bucket: string, prefix: string): string
  {
    "s3://" + bucket + "/" + prefix + "/" + ArchiveFileName
  }

  /** The position of the last `c` in `s`, if any. */
  function LastIndexOf(s: string, c: char): (r: Option<nat>)
    ensures r.Some? ==> r.value < |s| && s[r.value] == c && forall j :: r.value < j < |s| ==> s[j] != c
    ensures r.None? ==> forall j :: 0 <= j < |s| ==> s[j] != c
  {
    if s == [] then None
    else if s[|s| - 1] == c then Some(|s| - 1)
    else LastIndexOf(s[..|s| - 1], c)
  }

  /** Reads the model name and version back from an upload key prefix,
      splitting at the last '-': every prefix it accepts is the prefix of the
      pair it returns. */
  function ParseUploadKeyPrefix(p: string): (r: Option<(string, string)>)
    ensures r.Some? ==> '-' !in r.value.1 && UploadKeyPrefix(r.value.0, r.value.1) == p
  {
    if |p| < |UploadKeyRoot| || p[..|UploadKeyRoot|] != UploadKeyRoot then None
    else
      var rest := p[|UploadKeyRoot|..];
      match LastIndexOf(rest, '-')
      case None => None
      case Some(i) =>
        assert rest == rest[..i] + "-" + rest[i + 1..];
        assert p == UploadKeyRoot + rest;
        Some((rest[..i], rest[i + 1..]))
  }

  /** Registry versions are numbers, so they hold no '-', and then the
      prefix determines the model name and version. */
  lemma UploadKeyPrefixRoundTrip(name: string, version: string)
    requires '-' !in version
    ensures ParseUploadKeyPrefix(UploadKeyPrefix(name, version)) == Some((name, version))
  {
    var p := UploadKeyPrefix(name, version);
    var rest := p[|UploadKeyRoot|..];
    assert rest == name + "-" + version;
    var i := LastIndexOf(rest, '-');
    assert rest[|name|] == '-';
    assert i.Some? && i.value == |name|;
    assert rest[..|name|] == name;
    assert rest[|name| + 1..] == version;
  }

  /** Two versions (with numeric version strings) never share an upload
      prefix. */
  lemma UploadKeyPrefixInjective(name1: string, version1: string, name2: string, version2: string)
    requires '-' !in version1 && '-' !in version2
    requires UploadKeyPrefix(name1, version1) == UploadKeyPrefix(name2, version2)
    ensures name1 == name2 && version1 == version2
  {
    UploadKeyPrefixRoundTrip(name1, version1);
    UploadKeyPrefixRoundTrip(name2, version2);
  }

  /** Without numeric versions the prefix would be ambiguous: a name may
      itself contain '-'. */
  lemma UploadKeyPrefixAmbiguous()
    ensures UploadKeyPrefix("a-1", "2") == UploadKeyPrefix("a", "1-2")
  {
  }

  /** A handler for one version of one registered model. The tracking server
      it is constructed for is represented by the registry client it is
      given. */
  class MLflowHandler {
    const client: RegistryClient
    const modelName: string
    const modelVersion: string
    var modelStage: Option<Stage>

    constructor (client: RegistryClient, modelName: string, modelVersion: string)
      ensures this.client == client && this.modelName == modelName && this.modelVersion == modelVersion
      ensures modelStage == None
    {
      this.client := client;
      this.modelName := modelName;
      this.modelVersion := modelVersion;
      this.modelStage := None;
    }

    /** The registry key of the handled version. */
    function Key(): VersionKey
    {
      VersionKey(modelName, modelVersion)
    }

    /** `prepare_sagemaker_model()`: looks the version up, downloads and
        archives its files, uploads the archive under the version's key
        prefix and returns the uploaded location; any failure is logged and
        nothing is returned. `bucket` is the session's default bucket (none
        when the session cannot be created), `downloadOk` says whether the
        download and archiving succeed, `uploadOk` whether the upload does. */
    method PrepareSageMakerModel(bucket: Option<string>, downloadOk: bool, uploadOk: bool)
      returns (location: Option<string>)
      ensures location.Some? <==> bucket.Some? && Key() in client.stages && downloadOk && uploadOk
      ensures location.Some? ==> location.value == UploadLocation(bucket.value, UploadKeyPrefix(modelName, modelVersion))
    {
      if bucket.None? {
        return None;
      }
      var prefix := UploadKeyPrefix(modelName, modelVersion);
      var version := client.GetModelVersion(Key());
      if version.None? || !downloadOk || !uploadOk {
        return None;
      }
      location := Some(UploadLocation(bucket.value, prefix));
    }

    /** `transition_model_version_stage(stage)`: archives every version of
        the model name that the search reports in Staging or Production, then
        moves the handled version to `stage`. An error ends the run and is
        swallowed; the registry keeps what the earlier steps did. The new
        registry state is the one `Promotion` specifies, whose properties are
        proved in module Registry. */
    method TransitionModelVersionStage(stage: Stage)
      requires client.Valid()
      modifies client
      ensures client.Valid()
      ensures client.stages
           == Promotion(old(client.stages), client.listing, client.searchFails, client.refused, Key(), stage).stages
    {
      var found := client.SearchModelVersions(modelName);
      if found.None? {
        return;
      }
      var versions := found.value;
      ghost var initial := client.stages;
      ghost var refused := client.refused;
      var i := 0;
      while i < |versions|
        invariant 0 <= i <= |versions|
        invariant client.Valid()
        invariant ArchiveActive(client.stages, versions[i..], refused) == ArchiveActive(initial, versions, refused)
      {
        var v := versions[i];
        assert versions[i..][0] == v && versions[i..][1..] == versions[i + 1..];
        if IsActive(v.currentStage) {
          var ok := client.TransitionModelVersionStage(v.Key(), Archived);
          if !ok {
            return;
          }
        }
        i := i + 1;
      }
      assert versions[i..] == [];
      var ok := client.TransitionModelVersionStage(Key(), stage);
    }
  }
}
