/**
 The file names of `create_ability_template`, `create_adversary_profile` and
 `create_operation_profile`: `f"{name.lower().replace(' ', '_')}{suffix}"`, and the
 re-raised exception when writing the file fails.
 */
module Templates {
  import opened Wrappers
  import opened Text

  const ABILITY_SUFFIX := "_ability.yml"
  const ADVERSARY_SUFFIX := "_adversary.yml"
  const OPERATION_SUFFIX := "_operation.yml"

  /** `name.lower().replace(' ', '_')`: each space becomes '_', each ASCII capital its lower-case letter. */
  function Slug(name: string): (r: string)
    ensures |r| == |name|
    ensures forall i :: 0 <= i < |name| ==> r[i] == if name[i] == ' ' then '_' else LowerChar(name[i])
  {
    Replace(Lower(name), ' ', '_')
  }

  /** A slug holds no space and no capital letter. */
  lemma SlugClean(name: string)
    ensures ' ' !in Slug(name)
    ensures forall i :: 0 <= i < |Slug(name)| ==> !IsUpper(Slug(name)[i])
  {
    var r := Slug(name);
    forall i | 0 <= i < |r| ensures r[i] != ' ' && !IsUpper(r[i]) {
      assert LowerChar(name[i]) != ' ' || name[i] == ' ';
    }
  }

  /** Slugging a slug changes nothing. */
  lemma SlugIdempotent(name: string)
    ensures Slug(Slug(name)) == Slug(name)
  {
    var r := Slug(name);
    SlugClean(name);
    forall i | 0 <= i < |r| ensures Slug(r)[i] == r[i] {
      assert r[i] != ' ' && !IsUpper(r[i]);
    }
  }

  /** The file name for a name and a suffix: the slug, then the suffix; no space unless the suffix has one. */
  function SlugFilename(name: string, suffix: string): (filename: string)
    ensures |filename| == |name| + |suffix|
    ensures filename[..|name|] == Slug(name)
    ensures filename[|name|..] == suffix
    ensures ' ' !in suffix ==> ' ' !in filename
  {
    SlugClean(name);
    Slug(name) + suffix
  }

  /** The result of creating a file: its name, or the wrapped message when writing raises. */
  function Created(filename: string, failurePrefix: string, writeError: Option<string>): (r: Result<string>)
    ensures r.Ok? <==> writeError.None?
    ensures r.Ok? ==> r.value == filename
    ensures r.Err? ==> r.message == failurePrefix + writeError.value
  {
    match writeError
    case None => Ok(filename)
    case Some(e) => Err(failurePrefix + e)
  }

  /** `create_ability_template`: writes `<slug>_ability.yml`. */
  function CreateAbilityTemplate(abilityName: string, writeError: Option<string>): (r: Result<string>)
    ensures r.Ok? <==> writeError.None?
    ensures r.Ok? ==> r.value == SlugFilename(abilityName, ABILITY_SUFFIX) && ' ' !in r.value
    ensures r.Err? ==> r.message == "Failed to create ability template: " + writeError.value
  {
    Created(SlugFilename(abilityName, ABILITY_SUFFIX), "Failed to create ability template: ", writeError)
  }

  /** `create_adversary_profile`: writes `<slug>_adversary.yml`. */
  function CreateAdversaryProfile(name: string, writeError: Option<string>): (r: Result<string>)
    ensures r.Ok? <==> writeError.None?
    ensures r.Ok? ==> r.value == SlugFilename(name, ADVERSARY_SUFFIX) && ' ' !in r.value
    ensures r.Err? ==> r.message == "Failed to create adversary profile: " + writeError.value
  {
    Created(SlugFilename(name, ADVERSARY_SUFFIX), "Failed to create adversary profile: ", writeError)
  }

  /** `create_operation_profile`: writes `<slug>_operation.yml`. */
  function CreateOperationProfile(name: string, writeError: Option<string>): (r: Result<string>)
    ensures r.Ok? <==> writeError.None?
    ensures r.Ok? ==> r.value == SlugFilename(name, OPERATION_SUFFIX) && ' ' !in r.value
    ensures r.Err? ==> r.message == "Failed to create operation profile: " + writeError.value
  {
    Created(SlugFilename(name, OPERATION_SUFFIX), "Failed to create operation profile: ", writeError)
  }
}
