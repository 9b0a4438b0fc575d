/** The deployment configuration extender of `model_deploy/build.py`.

    `extend_config` takes a stage configuration document (a JSON object read
    from a file), checks that its "Parameters" section holds a "StageName",
    gives it an empty "Tags" section when it has none (in the caller's
    document), and returns a new two-section document in which six deployment
    parameters and six tags override the original entries of the same name. */
module Build {
  import opened Wrappers

  /** A JSON value as `json.load` produces it. Numbers are kept as integers:
      the extender never looks inside a number, it only copies it. */
  datatype Json =
    | JNull
    | JBool(b: bool)
    | JNum(n: int)
    | JStr(s: string)
    | JArr(items: seq<Json>)
    | JObj(fields: map<string, Json>)

  /** A JSON object: a Python `dict` with string keys. */
  type Object = map<string, Json>

  /** What `extend_config` raises: the configuration error of line 16, or the
      `TypeError` Python itself raises when a section has the wrong JSON type. */
  datatype ConfigError = MissingStageName | TypeError

  /** The command-line arguments `extend_config` reads (all `type=str`). */
  datatype DeployArgs = DeployArgs(
    sagemakerProjectId: string,
    sagemakerProjectName: string,
    containerImageUri: string,
    modelExecutionRole: string,
    initialInstanceCount: string,
    instanceType: string,
    modelName: string,
    modelVersion: string,
    trackingUri: string)

  const ParametersKey: string := "Parameters"
  const TagsKey: string := "Tags"
  const StageNameKey: string := "StageName"
  const DeploymentStageTag: string := "sagemaker:deployment-stage"

  /** The parameter names the extender sets, whatever the document held. */
  const OverriddenParameters: set<string> := {
    "SageMakerProjectName", "ModelDataLocation", "ContainerImageURI",
    "ModelExecutionRoleArn", "EndpointInstanceCount", "EndpointInstanceType"
  }

  /** The tag names the extender sets, whatever the document held. */
  const OverriddenTags: set<string> := {
    DeploymentStageTag, "sagemaker:project-id", "sagemaker:project-name",
    "ModelName", "ModelVersion", "TrackingURI"
  }

  /** `needle` occurs in `hay` starting at index `i`. */
  predicate OccursAt(needle: string, hay: string, i: int)
  {
    0 <= i <= |hay| - |needle| && hay[i..i + |needle|] == needle
  }

  /** True iff `needle` occurs as a contiguous run of `hay` (Python's `in` on
      two strings). */
  function IsSubstring(needle: string, hay: string): (b: bool)
    ensures b <==> exists i :: OccursAt(needle, hay, i)
    decreases |hay|
  {
    if |hay| < |needle| then false
    else if hay[..|needle|] == needle then
      assert OccursAt(needle, hay, 0);
      true
    else
      var rest := IsSubstring(needle, hay[1..]);
      assert forall i :: OccursAt(needle, hay, i) ==> OccursAt(needle, hay[1..], i - 1) by {
        forall i | OccursAt(needle, hay, i) ensures OccursAt(needle, hay[1..], i - 1) {
          assert i != 0;
          assert hay[1..][i - 1..i - 1 + |needle|] == hay[i..i + |needle|];
        }
      }
      assert rest ==> exists i :: OccursAt(needle, hay, i) by {
        if rest {
          var j :| OccursAt(needle, hay[1..], j);
          assert hay[1..][j..j + |needle|] == hay[j + 1..j + 1 + |needle|];
          assert OccursAt(needle, hay, j + 1);
        }
      }
      rest
  }

  /** Python's `key in container` on a value `json.load` produced: membership
      of a key in an object, of an equal string in an array, of a substring in
      a string; a number, a boolean or null is not iterable and raises. */
  function Contains(container: Json, key: string): (r: Result<bool, ConfigError>)
    ensures r.Failure? <==> container.JNull? || container.JBool? || container.JNum?
    ensures r.Failure? ==> r.error == TypeError
    ensures container.JObj? ==> (r == Success(true) <==> key in container.fields)
    ensures container.JArr? ==> (r == Success(true) <==> exists i :: 0 <= i < |container.items| && container.items[i] == JStr(key))
    ensures container.JStr? ==> (r == Success(true) <==> exists i :: OccursAt(key, container.s, i))
  {
    match container
    case JObj(fields) => Success(key in fields)
    case JArr(items) => Success(JStr(key) in items)
    case JStr(s) => Success(IsSubstring(key, s))
    case _ => Failure(TypeError)
  }

  /** The JSON value of the model location: `prepare_sagemaker_model`
      returns `None` when it fails, which `json.dump` writes as null. */
  function LocationValue(location: Option<string>): Json
  {
    match location
    case None => JNull
    case Some(s) => JStr(s)
  }

  /** The six deployment parameters (`new_params`). */
  function NewParams(args: DeployArgs, location: Option<string>): (p: Object)
    ensures p.Keys == OverriddenParameters
    ensures StageNameKey !in p
  {
    map[
      "SageMakerProjectName" := JStr(args.sagemakerProjectName),
      "ModelDataLocation" := LocationValue(location),
      "ContainerImageURI" := JStr(args.containerImageUri),
      "ModelExecutionRoleArn" := JStr(args.modelExecutionRole),
      "EndpointInstanceCount" := JStr(args.initialInstanceCount),
      "EndpointInstanceType" := JStr(args.instanceType)
    ]
  }

  /** The six deployment tags (`new_tags`); the stage tag carries the
      document's own "StageName" value. */
  function NewTags(args: DeployArgs, stageName: Json): (t: Object)
    ensures t.Keys == OverriddenTags
    ensures t[DeploymentStageTag] == stageName
  {
    map[
      DeploymentStageTag := stageName,
      "sagemaker:project-id" := JStr(args.sagemakerProjectId),
      "sagemaker:project-name" := JStr(args.sagemakerProjectName),
      "ModelName" := JStr(args.modelName),
      "ModelVersion" := JStr(args.modelVersion),
      "TrackingURI" := JStr(args.trackingUri)
    ]
  }

  /** The document has a "Parameters" object that holds a "StageName". */
  predicate HasStageName(doc: Object)
  {
    ParametersKey in doc && doc[ParametersKey].JObj? && StageNameKey in doc[ParametersKey].fields
  }

  /** The sections the extender reads are objects whenever they are present:
      the shape the stage configuration templates are meant to have. */
  predicate WellShaped(doc: Object)
  {
    && (ParametersKey in doc ==> doc[ParametersKey].JObj?)
    && (TagsKey in doc ==> doc[TagsKey].JObj?)
  }

  /** The fields of section `key` of a document, empty when it is absent or
      not an object. */
  function Section(doc: Object, key: string): Object
  {
    if key in doc && doc[key].JObj? then doc[key].fields else map[]
  }

  /** The outcome of the check at line 15 of `build.py`: `Success(true)`
      when the document may be extended. */
  function StageNameCheck(doc: Object): (r: Result<bool, ConfigError>)
    ensures ParametersKey !in doc ==> r == Success(false)
    ensures r.Failure? <==> ParametersKey in doc && (doc[ParametersKey].JNull? || doc[ParametersKey].JBool? || doc[ParametersKey].JNum?)
    ensures WellShaped(doc) ==> (r == Success(true) <==> HasStageName(doc))
  {
    if ParametersKey !in doc then Success(false) else Contains(doc[ParametersKey], StageNameKey)
  }

  /** `doc` with the empty "Tags" section line 18 inserts when it is missing. */
  function WithTagsDefault(doc: Object): (d: Object)
    ensures TagsKey in d
    ensures TagsKey in doc ==> d == doc
    ensures TagsKey !in doc ==> d[TagsKey] == JObj(map[]) && forall k :: k != TagsKey ==> (k in d <==> k in doc)
    ensures forall k :: k in doc ==> k in d && d[k] == doc[k]
  {
    if TagsKey in doc then doc else doc[TagsKey := JObj(map[])]
  }

  /** What `extend_config(args, location, doc)` returns or raises, as a
      function of the document it is given. */
  function Extend(args: DeployArgs, location: Option<string>, doc: Object): (r: Result<Object, ConfigError>)
    ensures r.Success? ==> HasStageName(doc)
    ensures r.Success? ==> r.value.Keys == {ParametersKey, TagsKey}
    ensures r.Success? ==> r.value[ParametersKey].JObj? && r.value[TagsKey].JObj?
  {
    match StageNameCheck(doc)
    case Failure(e) => Failure(e)
    case Success(found) =>
      if !found then Failure(MissingStageName)
      else
        var params := doc[ParametersKey];
        var tags := WithTagsDefault(doc)[TagsKey];
        if !params.JObj? || !tags.JObj? then Failure(TypeError)
        else
          var stageName := params.fields[StageNameKey];
          Success(map[
            ParametersKey := JObj(params.fields + NewParams(args, location)),
            TagsKey := JObj(tags.fields + NewTags(args, stageName))
          ])
  }

  /** The caller's configuration dictionary, which `extend_config` updates in
      place. */
  class StageConfig {
    var doc: Object

    constructor (doc: Object)
      ensures this.doc == doc
    {
      this.doc := doc;
    }
  }

  /** `extend_config(args, model_data_location, stage_config)`: the result is
      `Extend` of the document as it was on entry, and the caller's document
      gains an empty "Tags" section exactly when it passes the check and has
      none. */
  method ExtendConfig(args: DeployArgs, location: Option<string>, config: StageConfig)
    returns (r: Result<Object, ConfigError>)
    modifies config
    ensures r == Extend(args, location, old(config.doc))
    ensures config.doc == if StageNameCheck(old(config.doc)) == Success(true)
                          then WithTagsDefault(old(config.doc)) else old(config.doc)
  {
    if ParametersKey !in config.doc {
      return Failure(MissingStageName);
    }
    var found := Contains(config.doc[ParametersKey], StageNameKey);
    if found.Failure? {
      return Failure(found.error);
    }
    if !found.value {
      return Failure(MissingStageName);
    }
    if TagsKey !in config.doc {
      config.doc := config.doc[TagsKey := JObj(map[])];
    }
    var params := config.doc[ParametersKey];
    if !params.JObj? {
      // Line 29 indexes a list or a string with a string.
      return Failure(TypeError);
    }
    var newParams := NewParams(args, location);
    var newTags := NewTags(args, params.fields[StageNameKey]);
    var tags := config.doc[TagsKey];
    if !tags.JObj? {
      // Line 38 unpacks a value that is not a mapping.
      return Failure(TypeError);
    }
    r := Success(map[ParametersKey := JObj(params.fields + newParams), TagsKey := JObj(tags.fields + newTags)]);
  }

  /** The configuration error is raised exactly when the document has no
      "Parameters" section or `in` finds no "StageName" in it. */
  lemma ExtendMissingStageName(args: DeployArgs, location: Option<string>, doc: Object)
    ensures Extend(args, location, doc) == Failure(MissingStageName)
        <==> ParametersKey !in doc || Contains(doc[ParametersKey], StageNameKey) == Success(false)
  {
  }

  /** On a well-shaped document the extender fails exactly when "StageName"
      is missing, and then with the configuration error. */
  lemma ExtendFailsIff(args: DeployArgs, location: Option<string>, doc: Object)
    requires WellShaped(doc)
    ensures Extend(args, location, doc).Failure? <==> !HasStageName(doc)
    ensures Extend(args, location, doc).Failure? ==> Extend(args, location, doc).error == MissingStageName
  {
  }

  /** On every document the extender succeeds exactly when "Parameters" is
      an object holding "StageName" and "Tags", when present, is an object.
      A "Tags" value that is not an object fails the unpacking of line 38
      with a `TypeError`, even though the document passed the check. */
  lemma ExtendSucceedsIff(args: DeployArgs, location: Option<string>, doc: Object)
    ensures Extend(args, location, doc).Success? <==> HasStageName(doc) && (TagsKey in doc ==> doc[TagsKey].JObj?)
    ensures HasStageName(doc) && TagsKey in doc && !doc[TagsKey].JObj? ==> Extend(args, location, doc) == Failure(TypeError)
  {
  }

  /** The result's parameters are the original ones overridden by the six
      deployment parameters; every other parameter keeps its value. */
  lemma ExtendParameters(args: DeployArgs, location: Option<string>, doc: Object)
    requires Extend(args, location, doc).Success?
    ensures var p := Section(Extend(args, location, doc).value, ParametersKey);
      && p.Keys == Section(doc, ParametersKey).Keys + OverriddenParameters
      && (forall k :: k in OverriddenParameters ==> p[k] == NewParams(args, location)[k])
      && (forall k :: k in Section(doc, ParametersKey) && k !in OverriddenParameters ==> p[k] == Section(doc, ParametersKey)[k])
  {
  }

  /** "StageName" is not overridden: the result keeps the document's stage
      name, so it passes the check again. */
  lemma ExtendKeepsStageName(args: DeployArgs, location: Option<string>, doc: Object)
    requires Extend(args, location, doc).Success?
    ensures HasStageName(Extend(args, location, doc).value)
    ensures WellShaped(Extend(args, location, doc).value)
    ensures Section(Extend(args, location, doc).value, ParametersKey)[StageNameKey]
         == Section(doc, ParametersKey)[StageNameKey]
  {
  }

  /** The result's tags are the original ones (none when "Tags" is missing)
      overridden by the six deployment tags, and the stage tag is the
      document's stage name. */
  lemma ExtendTags(args: DeployArgs, location: Option<string>, doc: Object)
    requires Extend(args, location, doc).Success?
    ensures var t := Section(Extend(args, location, doc).value, TagsKey);
      && t.Keys == Section(doc, TagsKey).Keys + OverriddenTags
      && t[DeploymentStageTag] == Section(doc, ParametersKey)[StageNameKey]
      && (forall k :: k in OverriddenTags ==> t[k] == NewTags(args, Section(doc, ParametersKey)[StageNameKey])[k])
      && (forall k :: k in Section(doc, TagsKey) && k !in OverriddenTags ==> t[k] == Section(doc, TagsKey)[k])
  {
  }

  /** Extending an extended document with the same arguments changes
      nothing. */
  lemma ExtendIdempotent(args: DeployArgs, location: Option<string>, doc: Object)
    requires Extend(args, location, doc).Success?
    ensures Extend(args, location, Extend(args, location, doc).value) == Extend(args, location, doc)
  {
    var once := Extend(args, location, doc).value;
    var p := doc[ParametersKey].fields;
    var t := WithTagsDefault(doc)[TagsKey].fields;
    var np := NewParams(args, location);
    var nt := NewTags(args, p[StageNameKey]);
    assert once[ParametersKey].fields == p + np;
    assert (p + np)[StageNameKey] == p[StageNameKey];
    assert StageNameCheck(once) == Success(true);
    assert (p + np) + np == p + np;
    assert (t + nt) + nt == t + nt;
  }
}
