/** The server configuration loader: a configuration file (its effect is an
    input), then the environment variables on top, then a completeness
    check; and the bounded upward search for the module root. The file
    system is reached through two inputs: whether a directory holds go.mod,
    and the parent of a directory (`filepath.Dir`). */
module Config {
  import opened Common
  import opened Strings

  /** `ServerConfig`; the environment variables are LOG_LEVEL, ADDRESS and DATABASE_URL. */
  datatype ServerConfig = ServerConfig(logLevel: string, address: string, databaseUrl: string)

  const EmptyConfig := ServerConfig("", "", "")

  const MissingFieldsPrefix := "missing required fields: "
  const NoEnvVarsText := "no env vars found"
  const ReadEnvFailedPrefix := "failed to read env vars: "
  const ReachedRootText := "reached root directory without finding go.mod"
  const MaxIterationsText := "max iterations reached while searching for go.mod"
  const MaxProbes := 10

  predicate IsComplete(cfg: ServerConfig)
  {
    cfg.logLevel != "" && cfg.address != "" && cfg.databaseUrl != ""
  }

  /** The names of the empty fields, in the order log_level, address, database_url. */
  function MissingFields(cfg: ServerConfig): (names: seq<string>)
    ensures names == [] <==> IsComplete(cfg)
    ensures ("log_level" in names <==> cfg.logLevel == "") && ("address" in names <==> cfg.address == "")
    ensures "database_url" in names <==> cfg.databaseUrl == ""
    ensures |names| <= 3
  {
    (if cfg.logLevel == "" then ["log_level"] else [])
    + (if cfg.address == "" then ["address"] else [])
    + (if cfg.databaseUrl == "" then ["database_url"] else [])
  }

  /** `validateConfig`: nil exactly for a complete configuration; otherwise
      every missing field is named, in the fixed order, joined with ", ". */
  method ValidateConfig(cfg: ServerConfig) returns (err: Option<Error>)
    ensures err.None? <==> IsComplete(cfg)
    ensures err.Some? ==> err.value == Error(false, MissingFieldsPrefix + Join(MissingFields(cfg), ", "))
  {
    var missing: seq<string> := [];
    if cfg.logLevel == "" {
      missing := missing + ["log_level"];
    }
    if cfg.address == "" {
      missing := missing + ["address"];
    }
    if cfg.databaseUrl == "" {
      missing := missing + ["database_url"];
    }
    assert missing == MissingFields(cfg);
    if |missing| > 0 {
      return Some(Error(false, MissingFieldsPrefix + Join(missing, ", ")));
    }
    return None;
  }

  /** Only the log level is set: two fields are reported, in order. */
  lemma MissingTwoFields()
    ensures MissingFieldsPrefix + Join(MissingFields(ServerConfig("info", "", "")), ", ")
            == "missing required fields: address, database_url"
  {
    assert MissingFields(ServerConfig("info", "", "")) == ["address", "database_url"];
    assert Join(["address", "database_url"], ", ") == "address" + ", " + Join(["database_url"], ", ");
  }

  /** A loader's effect: the configuration after it, and its error. */
  datatype Loaded = Loaded(cfg: ServerConfig, err: Option<Error>)

  /** What `cleanenv.ReadEnv` does with the variables that are set: each one
      replaces its field. */
  function Overlay(cfg: ServerConfig, env: map<string, string>): (r: ServerConfig)
    ensures r.logLevel == (if "LOG_LEVEL" in env then env["LOG_LEVEL"] else cfg.logLevel)
    ensures r.address == (if "ADDRESS" in env then env["ADDRESS"] else cfg.address)
    ensures r.databaseUrl == (if "DATABASE_URL" in env then env["DATABASE_URL"] else cfg.databaseUrl)
  {
    ServerConfig(
      if "LOG_LEVEL" in env then env["LOG_LEVEL"] else cfg.logLevel,
      if "ADDRESS" in env then env["ADDRESS"] else cfg.address,
      if "DATABASE_URL" in env then env["DATABASE_URL"] else cfg.databaseUrl)
  }

  /** An empty environment changes nothing. */
  lemma OverlayNothingSet(cfg: ServerConfig)
    ensures Overlay(cfg, map[]) == cfg
  {
  }

  /** Laying two environments over a configuration one after the other is
      laying their union, the later one winning on a shared variable. */
  lemma OverlayTwice(cfg: ServerConfig, first: map<string, string>, second: map<string, string>)
    ensures Overlay(Overlay(cfg, first), second) == Overlay(cfg, first + second)
  {
  }

  /** With all three variables set, the configuration underneath is hidden. */
  lemma OverlayAllSet(cfg: ServerConfig, other: ServerConfig, env: map<string, string>)
    requires "LOG_LEVEL" in env && "ADDRESS" in env && "DATABASE_URL" in env
    ensures Overlay(cfg, env) == Overlay(other, env)
  {
  }

  /** `loadFromEnv`: a failure of the reader is wrapped; otherwise the
      variables are laid over the configuration, and the error "no env vars
      found" is reported exactly when the result is still the empty
      configuration. */
  function LoadFromEnv(cfg: ServerConfig, env: map<string, string>, readFault: Option<Error>): (r: Loaded)
    ensures readFault.Some? ==> r == Loaded(cfg, Some(Error(false, ReadEnvFailedPrefix + readFault.value.text)))
    ensures readFault.None? ==> r.cfg == Overlay(cfg, env)
    ensures readFault.None? ==> (r.err.Some? <==> Overlay(cfg, env) == EmptyConfig)
    ensures readFault.None? && r.err.Some? ==> r.err.value.text == NoEnvVarsText
  {
    if readFault.Some? then Loaded(cfg, Some(Error(false, ReadEnvFailedPrefix + readFault.value.text)))
    else
      var updated := Overlay(cfg, env);
      if updated == EmptyConfig then Loaded(updated, Some(Error(false, NoEnvVarsText))) else Loaded(updated, None)
  }

  /** The emptiness check looks at the whole configuration, not at the
      environment: after a file that set any field, no variable at all is
      not reported. */
  lemma NoEnvVarsHiddenByFile(cfg: ServerConfig)
    requires cfg != EmptyConfig
    ensures LoadFromEnv(cfg, map[], None).err.None?
  {
  }

  /** `NewServerConfig`: the file's configuration (`fileLoad`, from the
      empty one), the environment laid over it; nothing when both loaders
      failed or the result is incomplete, the configuration otherwise. */
  method NewServerConfig(fileLoad: Loaded, env: map<string, string>, readFault: Option<Error>)
    returns (r: Option<ServerConfig>)
    ensures r.Some? ==> IsComplete(r.value) && r.value == LoadFromEnv(fileLoad.cfg, env, readFault).cfg
    ensures r.Some? <==>
              IsComplete(LoadFromEnv(fileLoad.cfg, env, readFault).cfg)
              && (fileLoad.err.None? || LoadFromEnv(fileLoad.cfg, env, readFault).err.None?)
    ensures readFault.None? ==> (r.Some? <==> IsComplete(Overlay(fileLoad.cfg, env)))
  {
    var cfg := fileLoad.cfg;
    var fileErr := fileLoad.err;
    var envLoad := LoadFromEnv(cfg, env, readFault);
    cfg := envLoad.cfg;
    var envErr := envLoad.err;
    if fileErr.Some? && envErr.Some? {
      return None;
    }
    var err := ValidateConfig(cfg);
    if err.Some? {
      return None;
    }
    return Some(cfg);
  }

  /** A failed file load is tolerated: the variables alone can give a
      complete configuration. */
  lemma FileFailureTolerated(fileLoad: Loaded, env: map<string, string>)
    requires fileLoad.err.Some? && fileLoad.cfg == EmptyConfig
    requires "LOG_LEVEL" in env && "ADDRESS" in env && "DATABASE_URL" in env
    requires env["LOG_LEVEL"] != "" && env["ADDRESS"] != "" && env["DATABASE_URL"] != ""
    ensures IsComplete(Overlay(fileLoad.cfg, env))
    ensures LoadFromEnv(fileLoad.cfg, env, None).err.None?
  {
  }

  /** The upward search, one directory per probe, with `budget` probes left:
      the empty path and "/" end it, a directory holding go.mod is the
      answer, otherwise its parent is tried next. */
  function Search(dir: string, hasGoMod: string -> bool, parent: string -> string, budget: nat): Result<string, Error>
    decreases budget
  {
    if budget == 0 then Failure(Error(false, MaxIterationsText))
    else if dir == "" || dir == "/" then Failure(Error(false, ReachedRootText))
    else if hasGoMod(dir) then Success(dir)
    else Search(parent(dir), hasGoMod, parent, budget - 1)
  }

  /** The `k`-th directory above `dir`. */
  function Ancestor(dir: string, parent: string -> string, k: nat): string
  {
    if k == 0 then dir else parent(Ancestor(dir, parent, k - 1))
  }

  /** The search answers only with one of the first `budget` ancestors, and
      only with one that holds go.mod. */
  lemma {:induction false} SearchFindsModuleRoot(dir: string, hasGoMod: string -> bool, parent: string -> string, budget: nat)
    requires Search(dir, hasGoMod, parent, budget).Success?
    ensures hasGoMod(Search(dir, hasGoMod, parent, budget).value)
    ensures exists k :: 0 <= k < budget && Search(dir, hasGoMod, parent, budget).value == Ancestor(dir, parent, k)
    decreases budget
  {
    if !hasGoMod(dir) {
      var above := parent(dir);
      SearchFindsModuleRoot(above, hasGoMod, parent, budget - 1);
      var k :| 0 <= k < budget - 1 && Search(above, hasGoMod, parent, budget - 1).value == Ancestor(above, parent, k);
      AncestorShift(dir, parent, k);
      assert Search(dir, hasGoMod, parent, budget).value == Ancestor(dir, parent, k + 1);
    } else {
      assert Search(dir, hasGoMod, parent, budget).value == Ancestor(dir, parent, 0);
    }
  }

  /** The ancestors of a parent are the ancestors of the child, one further up. */
  lemma {:induction false} AncestorShift(dir: string, parent: string -> string, k: nat)
    ensures Ancestor(parent(dir), parent, k) == Ancestor(dir, parent, k + 1)
  {
    if k > 0 {
      AncestorShift(dir, parent, k - 1);
    }
  }

  /** A path that is its own parent ("." under `filepath.Dir`) and holds no
      go.mod exhausts the probes instead of looping forever. */
  lemma {:induction false} SelfParentExhaustsProbes(dir: string, hasGoMod: string -> bool, parent: string -> string, budget: nat)
    requires dir != "" && dir != "/" && !hasGoMod(dir) && parent(dir) == dir
    ensures Search(dir, hasGoMod, parent, budget) == Failure(Error(false, MaxIterationsText))
    decreases budget
  {
    if budget > 0 {
      SelfParentExhaustsProbes(dir, hasGoMod, parent, budget - 1);
    }
  }

  /** `findModuleRoot`: at most ten probes, each on the next ancestor of
      `dir`; the answer is the search's, a found directory is the first one
      probed that holds go.mod, and a failure follows probes that all missed. */
  method FindModuleRoot(dir: string, hasGoMod: string -> bool, parent: string -> string)
    returns (r: Result<string, Error>, probed: seq<string>)
    ensures r == Search(dir, hasGoMod, parent, MaxProbes)
    ensures |probed| <= MaxProbes
    ensures forall k :: 0 <= k < |probed| ==> probed[k] == Ancestor(dir, parent, k)
    ensures r.Success? ==> |probed| > 0 && r.value == probed[|probed| - 1] && hasGoMod(r.value)
    ensures r.Success? ==> forall k :: 0 <= k < |probed| - 1 ==> !hasGoMod(probed[k])
    ensures r.Failure? ==> forall k :: 0 <= k < |probed| ==> !hasGoMod(probed[k])
    ensures (dir == "" || dir == "/") ==> probed == [] && r == Failure(Error(false, ReachedRootText))
  {
    var current := dir;
    probed := [];
    var i := 0;
    while i < MaxProbes
      invariant 0 <= i <= MaxProbes
      invariant (dir == "" || dir == "/") ==> i == 0
      invariant |probed| == i
      invariant current == Ancestor(dir, parent, i)
      invariant forall k :: 0 <= k < i ==> probed[k] == Ancestor(dir, parent, k)
      invariant forall k :: 0 <= k < i ==> !hasGoMod(probed[k])
      invariant Search(dir, hasGoMod, parent, MaxProbes) == Search(current, hasGoMod, parent, MaxProbes - i)
    {
      if current == "" || current == "/" {
        return Failure(Error(false, ReachedRootText)), probed;
      }
      probed := probed + [current];
      if hasGoMod(current) {
        return Success(current), probed;
      }
      current := parent(current);
      i := i + 1;
    }
    r := Failure(Error(false, MaxIterationsText));
  }
}
