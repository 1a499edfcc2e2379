/**
 * The notification run: models and predictions whose `notification_sent`
 * flag is false (and whose ticker has a `stock_info` row) are appended to a
 * spreadsheet and e-mailed, and their flags are then set.
 *
 * The script defines `main` twice. The second definition (line 200) is the
 * one Python runs; it sets the flags whatever the e-mail outcome. The first
 * (line 123) sets them only after a delivered e-mail. Both are modelled:
 * `RunAsWritten` is the running one and `Run` the intended one.
 */
module SendNotifications {
  import opened Wrappers
  import opened Text
  import Predict
  import Diagnose

  datatype ModelRecord = ModelRecord(ticker: string, modelName: string, sent: bool)

  datatype PredictionRecord = PredictionRecord(ticker: string, direction: string, sent: bool)

  /** `trained_models` by `model_id`, `prediction_results` by `id`, and `stock_info` names by ticker. */
  datatype Db = Db(
    models: map<int, ModelRecord>,
    predictions: map<int, PredictionRecord>,
    companies: map<string, string>)

  /** `fetch_pending_notifications`: unflagged rows that join with `stock_info`. */
  function PendingModels(db: Db): (ids: set<int>)
    ensures forall id :: id in ids <==> id in db.models && !db.models[id].sent && db.models[id].ticker in db.companies
  {
    set id | id in db.models && !db.models[id].sent && db.models[id].ticker in db.companies
  }

  function PendingPredictions(db: Db): (ids: set<int>)
    ensures forall id :: id in ids <==>
      id in db.predictions && !db.predictions[id].sent && db.predictions[id].ticker in db.companies
  {
    set id | id in db.predictions && !db.predictions[id].sent && db.predictions[id].ticker in db.companies
  }

  /** The two UPDATE statements: rows whose id is listed get their flag set. */
  function FlagAll(db: Db, modelIds: set<int>, predictionIds: set<int>): Db
  {
    Db(
      map id | id in db.models :: if id in modelIds then db.models[id].(sent := true) else db.models[id],
      map id | id in db.predictions :: if id in predictionIds then db.predictions[id].(sent := true) else db.predictions[id],
      db.companies)
  }

  /**
   * `update_notification_flags`: nothing happens for two empty lists; an
   * error rolls both updates back and is re-raised.
   */
  function UpdateFlags(db: Db, modelIds: set<int>, predictionIds: set<int>, dbOk: bool): Result<Db, string>
  {
    if modelIds == {} && predictionIds == {} then Ok(db)
    else if !dbOk then Err("flag update failed")
    else Ok(FlagAll(db, modelIds, predictionIds))
  }

  /**
   * The flag is set exactly on the listed rows; every other field and every
   * other row stays as it was, and no row is added or removed.
   */
  lemma FlagAllFacts(db: Db, modelIds: set<int>, predictionIds: set<int>)
    ensures var d := FlagAll(db, modelIds, predictionIds);
      d.models.Keys == db.models.Keys && d.predictions.Keys == db.predictions.Keys && d.companies == db.companies
      && (forall id :: id in d.models ==>
            d.models[id].sent == (db.models[id].sent || id in modelIds)
            && d.models[id].ticker == db.models[id].ticker && d.models[id].modelName == db.models[id].modelName)
      && (forall id :: id in d.predictions ==>
            d.predictions[id].sent == (db.predictions[id].sent || id in predictionIds)
            && d.predictions[id].ticker == db.predictions[id].ticker
            && d.predictions[id].direction == db.predictions[id].direction)
      && (forall id :: id in d.models && id !in modelIds ==> d.models[id] == db.models[id])
      && (forall id :: id in d.predictions && id !in predictionIds ==> d.predictions[id] == db.predictions[id])
  {
  }

  /** Flagging removes exactly the flagged rows from what is pending and adds none. */
  lemma FlagRemovesPending(db: Db, modelIds: set<int>, predictionIds: set<int>)
    ensures PendingModels(FlagAll(db, modelIds, predictionIds)) == PendingModels(db) - modelIds
    ensures PendingPredictions(FlagAll(db, modelIds, predictionIds)) == PendingPredictions(db) - predictionIds
  {
    FlagAllFacts(db, modelIds, predictionIds);
  }

  /** Flagging the pending rows leaves nothing pending. */
  lemma FlagPendingClears(db: Db)
    ensures PendingModels(FlagAll(db, PendingModels(db), PendingPredictions(db))) == {}
    ensures PendingPredictions(FlagAll(db, PendingModels(db), PendingPredictions(db))) == {}
  {
    var d := FlagAll(db, PendingModels(db), PendingPredictions(db));
    forall id | id in d.models ensures !(id in PendingModels(d)) {
      FlagAllFacts(db, PendingModels(db), PendingPredictions(db));
    }
    forall id | id in d.predictions ensures !(id in PendingPredictions(d)) {
      FlagAllFacts(db, PendingModels(db), PendingPredictions(db));
    }
  }

  /** The environment variables the mailer needs. */
  const SmtpVars: seq<string> := ["SMTP_HOST", "SMTP_PORT", "SMTP_USER", "SMTP_PASSWORD", "SMTP_SENDER", "SMTP_RECIPIENT"]

  /** `all(smtp_vars.values())`: every variable is set and non-empty. */
  predicate SmtpConfigured(env: map<string, string>)
  {
    forall i :: 0 <= i < |SmtpVars| ==> SmtpVars[i] in env && env[SmtpVars[i]] != ""
  }

  /** `send_email_notification`: True only with a full SMTP configuration and a send that raised nothing. */
  function EmailDelivered(env: map<string, string>, sendOk: bool): (r: bool)
    ensures r ==> SmtpConfigured(env)
    ensures r ==> sendOk
  {
    SmtpConfigured(env) && sendOk
  }

  /** A send that raises (`smtplib` error, caught and reported) means no e-mail, however complete the configuration. */
  lemma SendFailureNoEmail(env: map<string, string>)
    ensures !EmailDelivered(env, false)
  {
  }

  /** A missing or empty variable means no e-mail, whatever the server would do. */
  lemma MissingVariableNoEmail(env: map<string, string>, sendOk: bool, v: string)
    requires v in SmtpVars && (v !in env || env[v] == "")
    ensures !EmailDelivered(env, sendOk)
  {
    var i :| 0 <= i < |SmtpVars| && SmtpVars[i] == v;
  }

  /** The run's outside world: the sheet name variable, SMTP variables, and whether each outside call succeeds. */
  datatype Env = Env(
    sheetName: Option<string>,
    smtp: map<string, string>,
    credentialsPresent: bool,
    sheetsOk: bool,
    sendOk: bool,
    dbOk: bool)

  /** The exit status, the database afterwards, and whether an e-mail went out. */
  datatype RunResult = RunResult(exitCode: int, db: Db, emailed: bool)

  /**
   * The steps shared by both `main` definitions, up to the flag decision:
   * None when the run stops before it (with its result), otherwise whether
   * the e-mail was delivered.
   */
  function Prologue(db: Db, env: Env): Result<bool, RunResult>
  {
    if env.sheetName.None? || env.sheetName.value == "" then Err(RunResult(1, db, false))
    else if PendingModels(db) == {} && PendingPredictions(db) == {} then Err(RunResult(0, db, false))
    else if !env.credentialsPresent || !env.sheetsOk then Err(RunResult(1, db, false))
    else Ok(EmailDelivered(env.smtp, env.sendOk))
  }

  /** Setting the flags of every pending row; a failure exits with status 1 and changes nothing. */
  function FlagPending(db: Db, env: Env, emailed: bool): RunResult
  {
    match UpdateFlags(db, PendingModels(db), PendingPredictions(db), env.dbOk)
    case Err(_) => RunResult(1, db, emailed)
    case Ok(d) => RunResult(0, d, emailed)
  }

  /** The `main` that runs (line 200): the flags are set whether or not the e-mail was delivered. */
  function RunAsWritten(db: Db, env: Env): RunResult
  {
    match Prologue(db, env)
    case Err(r) => r
    case Ok(emailed) => FlagPending(db, env, emailed)
  }

  /** The `main` of line 123: the flags are set only after a delivered e-mail. */
  function Run(db: Db, env: Env): RunResult
  {
    match Prologue(db, env)
    case Err(r) => r
    case Ok(emailed) => if emailed then FlagPending(db, env, emailed) else RunResult(0, db, false)
  }

  /** With nothing pending a run changes nothing and sends nothing, so flagged rows are never sent again. */
  lemma NothingPendingNothingSent(db: Db, env: Env)
    requires PendingModels(db) == {} && PendingPredictions(db) == {}
    ensures Run(db, env).db == db && !Run(db, env).emailed
    ensures RunAsWritten(db, env).db == db && !RunAsWritten(db, env).emailed
  {
  }

  /**
   * The intended run never loses a notification: every row pending before
   * it is either e-mailed and flagged, or still pending afterwards.
   */
  lemma RunKeepsUndelivered(db: Db, env: Env)
    ensures var r := Run(db, env);
      (r.emailed && r.exitCode == 0 ==> PendingModels(r.db) == {} && PendingPredictions(r.db) == {})
      && (!(r.emailed && r.exitCode == 0) ==> r.db == db)
  {
    var r := Run(db, env);
    if r.emailed && r.exitCode == 0 {
      FlagPendingClears(db);
    }
  }

  /** The running `main` flags every pending row after a successful flag update, delivered or not. */
  lemma RunAsWrittenFlagsAll(db: Db, env: Env)
    requires Prologue(db, env).Ok? && env.dbOk
    ensures var r := RunAsWritten(db, env);
      r.exitCode == 0 && PendingModels(r.db) == {} && PendingPredictions(r.db) == {}
  {
    FlagPendingClears(db);
  }

  /** The running `main` does not look at the e-mail: the database ends the same whatever the mailer does. */
  lemma RunAsWrittenIgnoresEmail(db: Db, env: Env, smtp: map<string, string>, sendOk: bool)
    ensures RunAsWritten(db, env).db == RunAsWritten(db, env.(smtp := smtp, sendOk := sendOk)).db
    ensures RunAsWritten(db, env).exitCode == RunAsWritten(db, env.(smtp := smtp, sendOk := sendOk)).exitCode
  {
  }

  /** One pending model, a sheet name, and no SMTP configuration. */
  const OnePending: Db := Db(map[1 := ModelRecord("7203.T", "7203.T_up", false)], map[], map["7203.T" := "Toyota"])

  const NoSmtp: Env := Env(Some("signals"), map[], true, true, true, true)

  /**
   * The input that shows the difference: without SMTP settings no e-mail is
   * sent, yet the running `main` flags the model as notified, so it is never
   * sent; the intended `main` leaves it pending for the next run.
   */
  lemma UndeliveredMarkedSent()
    ensures !RunAsWritten(OnePending, NoSmtp).emailed
    ensures PendingModels(OnePending) == {1}
    ensures PendingModels(RunAsWritten(OnePending, NoSmtp).db) == {}
    ensures Run(OnePending, NoSmtp).db == OnePending
  {
    assert !SmtpConfigured(NoSmtp.smtp) by {
      assert SmtpVars[0] !in NoSmtp.smtp;
    }
    assert 1 in PendingModels(OnePending);
    FlagPendingClears(OnePending);
  }

  /** The spreadsheet direction of a model: "up" when its name contains "up", otherwise "down". */
  function SheetDirection(modelName: string): (d: string)
    ensures d == "up" <==> Contains(modelName, "up")
    ensures d == "up" || d == "down"
  {
    if Contains(modelName, "up") then "up" else "down"
  }

  /** The sheet reads back the direction a model name was built with. */
  lemma SheetDirectionOfModelName(h: int, p: int)
    ensures SheetDirection(Predict.ModelName(h, "up", p)) == "up"
    ensures SheetDirection(Predict.ModelName(h, "down", p)) == "down"
  {
    Diagnose.DirectionOfModelName(h, p);
  }

  /** The sheet agrees with the model listing except that a name with neither word is filed as "down". */
  lemma SheetDirectionVsListing(name: string)
    ensures Diagnose.DirectionOf(name) != "不明" ==> SheetDirection(name) == Diagnose.DirectionOf(name)
    ensures Diagnose.DirectionOf(name) == "不明" ==> SheetDirection(name) == "down"
  {
  }

  /**
   * `write_to_spreadsheet` on a worksheet's values: nothing for an empty
   * frame; the header first when the worksheet is empty; then the rows.
   */
  function WriteRows(sheet: seq<seq<string>>, header: seq<string>, rows: seq<seq<string>>): (r: seq<seq<string>>)
    ensures rows == [] ==> r == sheet
    ensures rows != [] ==> |r| == |sheet| + |rows| + (if sheet == [] then 1 else 0)
    ensures rows != [] ==> r[..|sheet|] == sheet && r[|r| - |rows|..] == rows
    ensures rows != [] && sheet == [] ==> r[0] == header
  {
    if rows == [] then sheet
    else if sheet == [] then [header] + rows
    else sheet + rows
  }

  /** Two writes onto an empty worksheet put the header once, at the top. */
  lemma HeaderOnce(header: seq<string>, first: seq<seq<string>>, second: seq<seq<string>>)
    requires first != [] && second != []
    ensures WriteRows(WriteRows([], header, first), header, second) == [header] + first + second
  {
  }

  /** The flag table of the database. */
  class NotificationDb {
    var db: Db

    constructor(initial: Db)
      ensures db == initial
    {
      db := initial;
    }

    /** `update_notification_flags` on id lists; `raised` is true when it re-raises an error. */
    method UpdateNotificationFlags(modelIds: seq<int>, predictionIds: seq<int>, dbOk: bool) returns (raised: bool)
      modifies this
      ensures var r := UpdateFlags(old(db), (set id | id in modelIds), (set id | id in predictionIds), dbOk);
        (raised <==> r.Err?) && (r.Ok? ==> db == r.value) && (r.Err? ==> db == old(db))
    {
      var ms := set id | id in modelIds;
      var ps := set id | id in predictionIds;
      if modelIds == [] && predictionIds == [] {
        assert ms == {} && ps == {};
        return false;
      }
      assert ms != {} || ps != {} by {
        if modelIds != [] { assert modelIds[0] in ms; } else { assert predictionIds[0] in ps; }
      }
      if !dbOk {
        return true;
      }
      db := FlagAll(db, ms, ps);
      raised := false;
    }

    /** The `main` Python runs (line 200). */
    method MainAsWritten(env: Env) returns (exitCode: int, emailed: bool)
      modifies this
      ensures RunResult(exitCode, db, emailed) == RunAsWritten(old(db), env)
    {
      var r := RunAsWritten(db, env);
      db := r.db;
      exitCode := r.exitCode;
      emailed := r.emailed;
    }

    /** The `main` of line 123, which waits for a delivered e-mail before flagging. */
    method FirstMain(env: Env) returns (exitCode: int, emailed: bool)
      modifies this
      ensures RunResult(exitCode, db, emailed) == Run(old(db), env)
    {
      var r := Run(db, env);
      db := r.db;
      exitCode := r.exitCode;
      emailed := r.emailed;
    }
  }
}
