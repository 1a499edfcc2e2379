/**
 * script/config_loader.py: the settings read from `config.ini` — the
 * classification target (with defaults), the feature lags and moving-average
 * periods (comma-separated lists), and the hyper-parameter search settings,
 * whose test-mode variants live under `_test` keys.
 */
module ConfigLoader {
  import opened Wrappers
  import opened Text

  /** A parsed configuration: section, then option, then the value text. */
  type Config = map<string, map<string, string>>

  /** What the loader raises: a missing file, section or option, or a value that does not convert. */
  datatype ConfigError =
    | FileNotFound(path: string)
    | NoSection(section: string)
    | NoOption(section: string, option: string)
    | InvalidValue(text: string)

  /** `ConfigLoader(path)`: a path that does not exist raises before anything is read. */
  function Load(path: string, present: bool, parsed: Config): (r: Result<Config, ConfigError>)
    ensures !present <==> r == Err(FileNotFound(path))
    ensures present ==> r == Ok(parsed)
  {
    if !present then Err(FileNotFound(path)) else Ok(parsed)
  }

  /** `config.get(section, option)`. */
  function Get(c: Config, section: string, option: string): (r: Result<string, ConfigError>)
    ensures r.Ok? <==> section in c && option in c[section]
    ensures r.Ok? ==> r.value == c[section][option]
    ensures section !in c ==> r == Err(NoSection(section))
    ensures section in c && option !in c[section] ==> r == Err(NoOption(section, option))
  {
    if section !in c then Err(NoSection(section))
    else if option !in c[section] then Err(NoOption(section, option))
    else Ok(c[section][option])
  }

  /** `[convert(x.strip()) for x in pieces]`: the first piece that does not convert raises. */
  function ConvertAll<T>(pieces: seq<string>, convert: string -> Option<T>): (r: Result<seq<T>, ConfigError>)
    ensures r.Ok? <==> forall i :: 0 <= i < |pieces| ==> convert(Strip(pieces[i])).Some?
    ensures r.Ok? ==> |r.value| == |pieces| && forall i :: 0 <= i < |pieces| ==> convert(Strip(pieces[i])) == Some(r.value[i])
    ensures r.Err? ==> exists i :: 0 <= i < |pieces| && r.error == InvalidValue(Strip(pieces[i])) && convert(Strip(pieces[i])).None?
  {
    if pieces == [] then Ok([])
    else
      match convert(Strip(pieces[0]))
      case None => Err(InvalidValue(Strip(pieces[0])))
      case Some(x) =>
        match ConvertAll(pieces[1..], convert)
        case Err(e) => Err(e)
        case Ok(xs) =>
          assert forall i :: 1 <= i < |pieces| ==> pieces[i] == pieces[1..][i - 1];
          Ok([x] + xs)
  }

  /** `_get_list(section, option, convert)`: an empty value gives no elements. */
  function GetList<T>(c: Config, section: string, option: string, convert: string -> Option<T>): Result<seq<T>, ConfigError>
  {
    match Get(c, section, option)
    case Err(e) => Err(e)
    case Ok(v) => if v == "" then Ok([]) else ConvertAll(Split(v, ','), convert)
  }

  /**
   * An empty value gives `[]`; any other value gives one element per
   * comma-separated piece, in order, each the conversion of the stripped
   * piece, or the error for the first piece that does not convert.
   */
  lemma GetListFacts<T>(c: Config, section: string, option: string, convert: string -> Option<T>)
    requires section in c && option in c[section]
    ensures var v := c[section][option]; var r := GetList(c, section, option, convert);
      (v == "" ==> r == Ok([])) &&
      (v != "" ==>
        var pieces := Split(v, ',');
        Join(pieces, ",") == v &&
        (r.Ok? <==> forall i :: 0 <= i < |pieces| ==> convert(Strip(pieces[i])).Some?) &&
        (r.Ok? ==>
          |r.value| == Count(v, ',') + 1 &&
          forall i :: 0 <= i < |pieces| ==> convert(Strip(pieces[i])) == Some(r.value[i])))
  {
    if c[section][option] != "" {
      JoinOfSplit(c[section][option], ',');
    }
  }

  /** The spellings of a list of integers. */
  function Spellings(xs: seq<int>): (ss: seq<string>)
    ensures |ss| == |xs| && forall i :: 0 <= i < |xs| ==> ss[i] == IntToString(xs[i])
  {
    seq(|xs|, i requires 0 <= i < |xs| => IntToString(xs[i]))
  }

  /** Each spelling converts back to its integer. */
  lemma ConvertSpellings(xs: seq<int>)
    ensures ConvertAll(Spellings(xs), ParseInt) == Ok(xs)
  {
    var ss := Spellings(xs);
    forall i | 0 <= i < |ss|
      ensures ParseInt(Strip(ss[i])) == Some(xs[i])
    {
      SpellingParses(xs[i]);
    }
    var r := ConvertAll(ss, ParseInt);
    assert r.Ok?;
    var ys := r.value;
    forall i | 0 <= i < |xs|
      ensures ys[i] == xs[i]
    {
      assert ParseInt(Strip(ss[i])) == Some(ys[i]);
    }
    assert ys == xs;
  }

  lemma SpellingParses(x: int)
    ensures ParseInt(Strip(IntToString(x))) == Some(x)
  {
    var s := IntToString(x);
    assert forall k :: 0 <= k < |s| ==> !IsSpace(s[k]);
    assert Strip(s) == s;
    ParseIntOfIntToString(x);
  }

  /** No spelling holds a comma. */
  lemma SpellingsCommaFree(xs: seq<int>)
    ensures forall i :: 0 <= i < |xs| ==> ',' !in Spellings(xs)[i]
  {
    forall i | 0 <= i < |xs|
      ensures ',' !in Spellings(xs)[i]
    {
      var s := Spellings(xs)[i];
      assert forall k :: 0 <= k < |s| ==> s[k] != ',';
    }
  }

  /** A list of integers written with commas is read back as the same list. */
  lemma IntListRoundTrip(c: Config, section: string, option: string, xs: seq<int>)
    requires xs != []
    requires section in c && option in c[section] && c[section][option] == Join(Spellings(xs), ",")
    ensures GetList(c, section, option, ParseInt) == Ok(xs)
  {
    var ss := Spellings(xs);
    SpellingsCommaFree(xs);
    SplitOfJoin(ss, ',');
    JoinNonEmpty(ss, ",");
    ConvertSpellings(xs);
  }

  /** The join of a non-empty first piece is not empty. */
  lemma JoinNonEmpty(parts: seq<string>, sep: string)
    requires parts != [] && parts[0] != ""
    ensures Join(parts, sep) != ""
  {
  }

  // ------------------------------------------------------------ settings

  const TargetSection: string := "classification_target"
  const DefaultHorizon: int := 10
  const DefaultThreshold: real := 0.03

  /** `getint(..., fallback=f)`: the fallback only for a missing section or option; a bad value still raises. */
  function GetIntOr(c: Config, section: string, option: string, fallback: int): (r: Result<int, ConfigError>)
    ensures !(section in c && option in c[section]) ==> r == Ok(fallback)
    ensures section in c && option in c[section] ==>
      (r.Ok? <==> ParseInt(c[section][option]).Some?) && (r.Ok? ==> r == Ok(ParseInt(c[section][option]).value))
  {
    match Get(c, section, option)
    case Err(_) => Ok(fallback)
    case Ok(v) => match ParseInt(v) case None => Err(InvalidValue(v)) case Some(n) => Ok(n)
  }

  function GetRealOr(c: Config, section: string, option: string, fallback: real): (r: Result<real, ConfigError>)
    ensures !(section in c && option in c[section]) ==> r == Ok(fallback)
    ensures section in c && option in c[section] ==>
      (r.Ok? <==> ParseReal(c[section][option]).Some?) && (r.Ok? ==> r == Ok(ParseReal(c[section][option]).value))
  {
    match Get(c, section, option)
    case Err(_) => Ok(fallback)
    case Ok(v) => match ParseReal(v) case None => Err(InvalidValue(v)) case Some(x) => Ok(x)
  }

  /** `get_target_settings()`: (horizon, threshold). */
  function TargetSettings(c: Config): Result<(int, real), ConfigError>
  {
    match GetIntOr(c, TargetSection, "prediction_horizon", DefaultHorizon)
    case Err(e) => Err(e)
    case Ok(h) =>
      match GetRealOr(c, TargetSection, "return_threshold", DefaultThreshold)
      case Err(e) => Err(e)
      case Ok(t) => Ok((h, t))
  }

  /** Without the section the defaults 10 and 0.03 are used; stored values are read in their place. */
  lemma TargetSettingsFacts(c: Config)
    ensures TargetSection !in c ==> TargetSettings(c) == Ok((DefaultHorizon, DefaultThreshold))
    ensures TargetSection in c && "prediction_horizon" !in c[TargetSection] && "return_threshold" !in c[TargetSection] ==>
      TargetSettings(c) == Ok((DefaultHorizon, DefaultThreshold))
    ensures TargetSettings(c).Ok? && TargetSection in c && "prediction_horizon" in c[TargetSection] ==>
      Some(TargetSettings(c).value.0) == ParseInt(c[TargetSection]["prediction_horizon"])
  {
  }

  const FeatureSection: string := "feature_engineering"

  /** `get_feature_settings()`: (lags, moving-average periods). */
  function FeatureSettings(c: Config): (r: Result<(seq<int>, seq<int>), ConfigError>)
    ensures r.Ok? ==>
      GetList(c, FeatureSection, "feature_lag_days", ParseInt) == Ok(r.value.0) &&
      GetList(c, FeatureSection, "ma_periods", ParseInt) == Ok(r.value.1)
    ensures r.Err? ==>
      GetList(c, FeatureSection, "feature_lag_days", ParseInt).Err? || GetList(c, FeatureSection, "ma_periods", ParseInt).Err?
  {
    match GetList(c, FeatureSection, "feature_lag_days", ParseInt)
    case Err(e) => Err(e)
    case Ok(lags) =>
      match GetList(c, FeatureSection, "ma_periods", ParseInt)
      case Err(e) => Err(e)
      case Ok(mas) => Ok((lags, mas))
  }

  /** Lists written with commas into the two options are read back as the same settings. */
  lemma FeatureSettingsRoundTrip(c: Config, lags: seq<int>, mas: seq<int>)
    requires FeatureSection in c
    requires "feature_lag_days" in c[FeatureSection] && c[FeatureSection]["feature_lag_days"] == Join(Spellings(lags), ",")
    requires "ma_periods" in c[FeatureSection] && c[FeatureSection]["ma_periods"] == Join(Spellings(mas), ",")
    ensures FeatureSettings(c) == Ok((lags, mas))
  {
    ListRoundTrip(c, FeatureSection, "feature_lag_days", lags);
    ListRoundTrip(c, FeatureSection, "ma_periods", mas);
  }

  /** `IntListRoundTrip`, with the empty list written as the empty value. */
  lemma ListRoundTrip(c: Config, section: string, option: string, xs: seq<int>)
    requires section in c && option in c[section] && c[section][option] == Join(Spellings(xs), ",")
    ensures GetList(c, section, option, ParseInt) == Ok(xs)
  {
    if xs != [] {
      IntListRoundTrip(c, section, option, xs);
    }
  }

  const SearchSection: string := "hyperparameter_search"

  /** The option read in a mode: `<base>_test` in test mode, `<base>` otherwise. */
  function Key(base: string, testMode: bool): (k: string)
    ensures testMode ==> k == base + "_test"
    ensures !testMode ==> k == base
  {
    if testMode then base + "_test" else base
  }

  datatype SearchSettings = SearchSettings(
    optunaTrials: int, randomIter: int,
    nEstimators: seq<int>, learningRate: seq<real>, numLeaves: seq<int>)

  /** `config.getint(section, option)` with no fallback. */
  function GetInt(c: Config, section: string, option: string): (r: Result<int, ConfigError>)
    ensures r.Ok? <==> section in c && option in c[section] && ParseInt(c[section][option]).Some?
    ensures r.Ok? ==> Some(r.value) == ParseInt(c[section][option])
  {
    match Get(c, section, option)
    case Err(e) => Err(e)
    case Ok(v) => match ParseInt(v) case None => Err(InvalidValue(v)) case Some(n) => Ok(n)
  }

  /** The settings dictionary from the five reads, the first failing read raising. */
  function Combine(trials: Result<int, ConfigError>, iters: Result<int, ConfigError>, ne: Result<seq<int>, ConfigError>,
                   lr: Result<seq<real>, ConfigError>, nl: Result<seq<int>, ConfigError>): (r: Result<SearchSettings, ConfigError>)
    ensures r.Ok? <==> trials.Ok? && iters.Ok? && ne.Ok? && lr.Ok? && nl.Ok?
    ensures r.Ok? ==> r.value == SearchSettings(trials.value, iters.value, ne.value, lr.value, nl.value)
  {
    if trials.Err? then Err(trials.error)
    else if iters.Err? then Err(iters.error)
    else if ne.Err? then Err(ne.error)
    else if lr.Err? then Err(lr.error)
    else if nl.Err? then Err(nl.error)
    else Ok(SearchSettings(trials.value, iters.value, ne.value, lr.value, nl.value))
  }

  /** `get_hp_search_settings(test_mode)`, read in the order the dictionary is built. */
  function SearchSettingsOf(c: Config, testMode: bool): Result<SearchSettings, ConfigError>
  {
    Combine(
      GetInt(c, SearchSection, Key("optuna_n_trials", testMode)),
      GetInt(c, SearchSection, Key("random_n_iter", testMode)),
      GetList(c, SearchSection, Key("grid_n_estimators", testMode), ParseInt),
      GetList(c, SearchSection, Key("grid_learning_rate", testMode), ParseReal),
      GetList(c, SearchSection, Key("grid_num_leaves", testMode), ParseInt))
  }

  /** The options of the hyper-parameter section a mode reads. */
  function SearchKeys(testMode: bool): set<string>
  {
    {Key("optuna_n_trials", testMode), Key("random_n_iter", testMode), Key("grid_n_estimators", testMode),
     Key("grid_learning_rate", testMode), Key("grid_num_leaves", testMode)}
  }

  /**
   * The two modes read disjoint options: no option of test mode is one of
   * normal mode, so a test run never reads the production settings.
   */
  lemma ModeKeysDisjoint()
    ensures SearchKeys(true) !! SearchKeys(false)
  {
    var n := SearchKeys(false);
    TestKeyNotPlain("optuna_n_trials", n);
    TestKeyNotPlain("random_n_iter", n);
    TestKeyNotPlain("grid_n_estimators", n);
    TestKeyNotPlain("grid_learning_rate", n);
    TestKeyNotPlain("grid_num_leaves", n);
  }

  /** No plain option ends in `_test`, so no test option is a plain one. */
  lemma TestKeyNotPlain(base: string, plain: set<string>)
    requires plain == SearchKeys(false)
    ensures Key(base, true) !in plain
  {
    var k := Key(base, true);
    assert k[|k| - 5..] == "_test";
    assert "optuna_n_trials"[10..] == "rials";
    assert "random_n_iter"[8..] == "_iter";
    assert "grid_n_estimators"[12..] == "ators";
    assert "grid_learning_rate"[13..] == "_rate";
    assert "grid_num_leaves"[10..] == "eaves";
  }

  /** Two configurations with the same value, or the same absence, for one option of the hyper-parameter section. */
  predicate AgreeAt(c1: Config, c2: Config, k: string)
  {
    (SearchSection in c1 <==> SearchSection in c2) &&
    (SearchSection in c1 ==>
      (k in c1[SearchSection] <==> k in c2[SearchSection]) &&
      (k in c1[SearchSection] ==> c1[SearchSection][k] == c2[SearchSection][k]))
  }

  lemma GetAgree(c1: Config, c2: Config, k: string)
    requires AgreeAt(c1, c2, k)
    ensures Get(c1, SearchSection, k) == Get(c2, SearchSection, k)
    ensures GetInt(c1, SearchSection, k) == GetInt(c2, SearchSection, k)
    ensures GetList(c1, SearchSection, k, ParseInt) == GetList(c2, SearchSection, k, ParseInt)
    ensures GetList(c1, SearchSection, k, ParseReal) == GetList(c2, SearchSection, k, ParseReal)
  {
  }

  /**
   * Test mode reads only the `_test` options and normal mode only the plain
   * ones: configurations that agree on a mode's five options give that mode
   * the same settings.
   */
  lemma SearchSettingsReadOnlyKeys(c1: Config, c2: Config, testMode: bool)
    requires forall k :: k in SearchKeys(testMode) ==> AgreeAt(c1, c2, k)
    ensures SearchSettingsOf(c1, testMode) == SearchSettingsOf(c2, testMode)
  {
    var ks := SearchKeys(testMode);
    GetAgree(c1, c2, Key("optuna_n_trials", testMode));
    GetAgree(c1, c2, Key("random_n_iter", testMode));
    GetAgree(c1, c2, Key("grid_n_estimators", testMode));
    GetAgree(c1, c2, Key("grid_learning_rate", testMode));
    GetAgree(c1, c2, Key("grid_num_leaves", testMode));
  }

  /** A successful read holds the values stored under the mode's options. */
  lemma SearchSettingsValues(c: Config, testMode: bool)
    requires SearchSettingsOf(c, testMode).Ok?
    ensures var s := SearchSettingsOf(c, testMode).value;
      SearchSection in c &&
      Key("optuna_n_trials", testMode) in c[SearchSection] &&
      Some(s.optunaTrials) == ParseInt(c[SearchSection][Key("optuna_n_trials", testMode)]) &&
      Key("random_n_iter", testMode) in c[SearchSection] &&
      Some(s.randomIter) == ParseInt(c[SearchSection][Key("random_n_iter", testMode)]) &&
      GetList(c, SearchSection, Key("grid_n_estimators", testMode), ParseInt) == Ok(s.nEstimators) &&
      GetList(c, SearchSection, Key("grid_learning_rate", testMode), ParseReal) == Ok(s.learningRate) &&
      GetList(c, SearchSection, Key("grid_num_leaves", testMode), ParseInt) == Ok(s.numLeaves)
  {
  }
}
