/** One invocation of the handler (`lambda_handler`, lines 148-170) as a
    sequence of steps, each of which may fail and so abort the rest: make
    sure the audit table exists, fetch the configuration, read the source
    object, digest it, de-identify it, digest the result, write it to the
    output key, and append the audit record. The services are described by
    `Env` (what exists and which calls fail); the codec's serializer and the
    digest are function parameters the model knows nothing about. The run
    yields the durable effects in the order they happened and the outcome. */
module Handler {

  import opened Results
  import opened Strings
  import opened Dicom
  import opened Deident
  import opened OutputPath
  import opened Audit

  newtype byte = x: int | 0 <= x < 256

  /** A serialized object. */
  type Bytes = seq<byte>

  /** Name of the audit table (line 18). */
  const DdbTable: string := "dicom-edits"

  /** Name of the configuration parameter (line 19). */
  const EditsConfigParam: string := "/dicom-deident/edits-00"

  /** The status code of a successful invocation (line 163). */
  const StatusOk: int := 200

  /** What the services hold and which of the handler's calls to them fail. */
  datatype Env = Env(
    tables: set<string>,               // tables that already exist in the audit store
    createFails: bool,                 // creating the audit table raises
    parameters: map<string, Config>,   // the parameter store, each value already decoded
    source: Option<Dataset>,           // the parsed source object, None if download or parse failed
    putFails: bool,                    // writing the sanitized object raises
    auditFails: bool,                  // appending the audit record raises
    now: string)                       // the UTC timestamp taken on line 103

  /** A durable change to the outside world. */
  datatype Effect =
    | CreateTable(name: string)
    | PutObject(bucket: string, key: string, body: Bytes)
    | PutAudit(table: string, record: AuditRecord)

  /** Why an invocation failed. */
  datatype Failure =
    | TableUnavailable
    | ConfigUnavailable(name: string)
    | SourceUnreadable
    | DeidentFailed(reason: Error)
    | ObjectWriteFailed(key: string)
    | AuditKeyFailed(reason: Error)
    | AuditWriteFailed

  /** The response of a successful invocation: its status code and the
      source key echoed in the body. */
  datatype Response = Response(statusCode: int, key: string)

  /** The effects of an invocation, oldest first, and how it ended. */
  datatype Run = Run(trace: seq<Effect>, outcome: Result<Response, Failure>)

  /** Lines 120-146: load the table named `name`; if that fails, create the
      table — under the fixed name `DdbTable`, whatever `name` was. */
  function EnsureTable(name: string, env: Env): (r: Result<seq<Effect>, Failure>)
    ensures r.Ok? && name in env.tables ==> r.value == []
    ensures r.Ok? && name !in env.tables ==> r.value == [CreateTable(DdbTable)]
    ensures r.Ok? ==> forall i :: 0 <= i < |r.value| ==> r.value[i] == CreateTable(DdbTable)
    ensures r.Err? <==> name !in env.tables && env.createFails
  {
    if name in env.tables then Ok([])
    else if env.createFails then Err(TableUnavailable)
    else Ok([CreateTable(DdbTable)])
  }

  /** The names of the tables a trace creates. */
  function CreatedTables(trace: seq<Effect>): set<string>
  {
    set i | 0 <= i < |trace| && trace[i].CreateTable? :: trace[i].name
  }

  /** Once the setup succeeded, the audit table exists: a later invocation
      finds it, loads it and creates nothing. */
  lemma EnsureTableThenPresent(env: Env)
    requires EnsureTable(DdbTable, env).Ok?
    ensures var after := env.(tables := env.tables + CreatedTables(EnsureTable(DdbTable, env).value));
            EnsureTable(DdbTable, after) == Ok([])
  {
    var effects := EnsureTable(DdbTable, env).value;
    if DdbTable !in env.tables {
      assert effects[0] == CreateTable(DdbTable);
      assert DdbTable in CreatedTables(effects);
    }
  }

  /** Every audit record appended directly follows the write of a sanitized
      object. */
  predicate AuditFollowsWrite(trace: seq<Effect>)
  {
    forall i :: 0 <= i < |trace| && trace[i].PutAudit? ==> 0 < i && trace[i - 1].PutObject?
  }

  /** The trace contains no object write and no audit record. */
  predicate NoWrites(trace: seq<Effect>)
  {
    forall i :: 0 <= i < |trace| ==> trace[i].CreateTable?
  }

  /** The trace contains no object write. */
  predicate NoObjectWritten(trace: seq<Effect>)
  {
    forall i :: 0 <= i < |trace| ==> !trace[i].PutObject?
  }

  /** The trace ends with an audit record. */
  predicate EndsWithAudit(trace: seq<Effect>)
  {
    |trace| >= 1 && trace[|trace| - 1].PutAudit?
  }

  /** Lines 149-170 for an event naming `bucket` and `key`. */
  function HandleEvent(bucket: string, key: string, env: Env,
                       encode: Dataset -> Bytes, md5: Bytes -> string): Run
  {
    match EnsureTable(DdbTable, env)
    case Err(f) => Run([], Err(f))
    case Ok(setup) =>
      var rest := Process(bucket, key, env, encode, md5);
      Run(setup + rest.trace, rest.outcome)
  }

  /** Lines 153-160, once the table is there: fetch the configuration,
      read and digest the source, de-identify it and publish the result to
      the output key. */
  function Process(bucket: string, key: string, env: Env,
                   encode: Dataset -> Bytes, md5: Bytes -> string): Run
  {
    if EditsConfigParam !in env.parameters then Run([], Err(ConfigUnavailable(EditsConfigParam)))
    else if env.source.None? then Run([], Err(SourceUnreadable))
    else
      var config := env.parameters[EditsConfigParam];
      var ds := env.source.value;
      var before := md5(encode(ds));
      match Deidentify(ds, config)
      case Err(aborted) => Run([], Err(DeidentFailed(aborted.reason)))
      case Ok(clean) => Publish(bucket, key, OutputKey(key), env, before, clean, encode, md5)
  }

  /** Lines 157-160 once the dataset is de-identified: serialize and digest
      it, write it to `outKey`, then append the audit record. A failed write
      is logged and raised again (lines 59-61), so nothing is recorded; a
      failure to build or append the record raises after the object is
      written. */
  function Publish(bucket: string, key: string, outKey: string, env: Env, before: string,
                   clean: Dataset, encode: Dataset -> Bytes, md5: Bytes -> string): Run
  {
    var body := encode(clean);
    if env.putFails then Run([], Err(ObjectWriteFailed(outKey)))
    else
      var written := [PutObject(bucket, outKey, body)];
      match RecordDeident(key, clean, before, md5(body), env.now)
      case Err(e) => Run(written, Err(AuditKeyFailed(e)))
      case Ok(record) =>
        if env.auditFails then Run(written, Err(AuditWriteFailed))
        else Run(written + [PutAudit(DdbTable, record)], Ok(Response(StatusOk, key)))
  }

  /** The record appended for `clean`, read from `key` with digest
      `before`. */
  function RecordFor(key: string, clean: Dataset, before: string, env: Env,
                     encode: Dataset -> Bytes, md5: Bytes -> string): AuditRecord
    requires AuditFieldsPresent(clean)
  {
    AuditRecord(AuditKey(clean).value, key, before, md5(encode(clean)), env.now)
  }

  /** Every way publishing can end: a failed write stops it with nothing
      written; otherwise the object is written and followed by the record
      exactly when the audit key can be built and the append succeeds; a
      missing key field fails with the key's error, a failed append with
      `AuditWriteFailed`. */
  lemma PublishOutcomes(bucket: string, key: string, outKey: string, env: Env, before: string,
                        clean: Dataset, encode: Dataset -> Bytes, md5: Bytes -> string)
    ensures var run := Publish(bucket, key, outKey, env, before, clean, encode, md5);
            var written := [PutObject(bucket, outKey, encode(clean))];
            && (env.putFails ==> run == Run([], Err(ObjectWriteFailed(outKey))))
            && (!env.putFails && !AuditFieldsPresent(clean)
                ==> run == Run(written, Err(AuditKeyFailed(AuditKey(clean).error))))
            && (!env.putFails && AuditFieldsPresent(clean) && env.auditFails
                ==> run == Run(written, Err(AuditWriteFailed)))
            && (!env.putFails && AuditFieldsPresent(clean) && !env.auditFails
                ==> run == Run(written + [PutAudit(DdbTable, RecordFor(key, clean, before, env, encode, md5))],
                               Ok(Response(StatusOk, key))))
  {
    RecordDeidentKeyedByAuditKey(key, clean, before, md5(encode(clean)), env.now);
  }

  /** Publishing succeeds exactly when it ends with the record; the record
      directly follows the object write, which comes first; a failed write
      leaves nothing written. */
  lemma PublishShape(bucket: string, key: string, outKey: string, env: Env, before: string,
                     clean: Dataset, encode: Dataset -> Bytes, md5: Bytes -> string)
    ensures var run := Publish(bucket, key, outKey, env, before, clean, encode, md5);
            && (run.outcome.Ok? <==> EndsWithAudit(run.trace))
            && (run.outcome.Ok? ==> run.outcome.value == Response(StatusOk, key))
            && AuditFollowsWrite(run.trace) && (|run.trace| == 0 || run.trace[0].PutObject?)
            && (env.putFails ==> run.trace == [] && run.outcome.Err?)
  {
    PublishOutcomes(bucket, key, outKey, env, before, clean, encode, md5);
    var run := Publish(bucket, key, outKey, env, before, clean, encode, md5);
    var write := PutObject(bucket, outKey, encode(clean));
    if env.putFails {
      assert run.trace == [];
    } else if !AuditFieldsPresent(clean) || env.auditFails {
      assert run.trace == [write] && run.outcome.Err?;
    } else {
      var audit := PutAudit(DdbTable, RecordFor(key, clean, before, env, encode, md5));
      assert [write] + [audit] == [write, audit];
      assert run.trace == [write, audit] && run.outcome.Ok?;
    }
  }

  /** Table setup followed by a publishing trace keeps the publishing
      trace's shape. */
  lemma AppendAfterSetup(setup: seq<Effect>, tail: seq<Effect>)
    requires NoWrites(setup)
    ensures AuditFollowsWrite(tail) && (|tail| == 0 || tail[0].PutObject?) ==> AuditFollowsWrite(setup + tail)
    ensures NoObjectWritten(tail) ==> NoObjectWritten(setup + tail)
    ensures EndsWithAudit(setup + tail) <==> EndsWithAudit(tail)
  {
    var all := setup + tail;
    if AuditFollowsWrite(tail) && (|tail| == 0 || tail[0].PutObject?) {
      forall i | 0 <= i < |all| && all[i].PutAudit?
        ensures 0 < i && all[i - 1].PutObject?
      {
        assert i >= |setup|;
        assert all[i] == tail[i - |setup|];
        assert all[i - 1] == tail[i - 1 - |setup|];
      }
    }
    if NoObjectWritten(tail) {
      forall i | 0 <= i < |all| ensures !all[i].PutObject? {
        if i >= |setup| {
          assert all[i] == tail[i - |setup|];
        }
      }
    }
    if |tail| == 0 {
      assert all == setup;
      if |setup| > 0 {
        assert setup[|setup| - 1].CreateTable?;
      }
    } else {
      assert all[|all| - 1] == tail[|tail| - 1];
    }
  }

  /* ---------------------------------------------------------------------
     Properties
     --------------------------------------------------------------------- */

  /** Whatever the services do, a run succeeds exactly when it ends with an
      audit record, every record directly follows an object write, and when
      the write fails no object is written and the run fails. */
  lemma HandleEventShape(bucket: string, key: string, env: Env,
                         encode: Dataset -> Bytes, md5: Bytes -> string)
    ensures var run := HandleEvent(bucket, key, env, encode, md5);
            && (run.outcome.Ok? <==> EndsWithAudit(run.trace))
            && (run.outcome.Ok? ==> run.outcome.value == Response(StatusOk, key))
            && AuditFollowsWrite(run.trace)
            && (env.putFails ==> NoObjectWritten(run.trace) && run.outcome.Err?)
  {
    if !Deidentified(env) {
      EarlyFailureWritesNothing(bucket, key, env, encode, md5);
    } else {
      DeidentifiedRunPublishes(bucket, key, env, encode, md5);
      PublishShape(bucket, key, OutputKey(key), env, md5(encode(env.source.value)), Clean(env), encode, md5);
      var tail := Publish(bucket, key, OutputKey(key), env, md5(encode(env.source.value)), Clean(env), encode, md5);
      AppendAfterSetup(EnsureTable(DdbTable, env).value, tail.trace);
    }
  }

  /** A run that got as far as de-identification: the audit table was
      there or could be created, the configuration and the source were
      available, and the engine succeeded. */
  predicate Deidentified(env: Env)
  {
    && EnsureTable(DdbTable, env).Ok?
    && EditsConfigParam in env.parameters
    && env.source.Some?
    && Deidentify(env.source.value, env.parameters[EditsConfigParam]).Ok?
  }

  /** The de-identified dataset of such a run. */
  function Clean(env: Env): Dataset
    requires Deidentified(env)
  {
    Deidentify(env.source.value, env.parameters[EditsConfigParam]).value
  }

  /** Lines 152-156: a run that does not get through de-identification
      fails with the first step's failure and writes nothing. */
  lemma EarlyFailureWritesNothing(bucket: string, key: string, env: Env,
                                  encode: Dataset -> Bytes, md5: Bytes -> string)
    requires !Deidentified(env)
    ensures var run := HandleEvent(bucket, key, env, encode, md5);
            && NoWrites(run.trace)
            && run.outcome.Err?
            && (DdbTable !in env.tables && env.createFails ==> run.outcome.error == TableUnavailable)
            && (EnsureTable(DdbTable, env).Ok? && EditsConfigParam !in env.parameters
                ==> run.outcome.error == ConfigUnavailable(EditsConfigParam))
            && (EnsureTable(DdbTable, env).Ok? && EditsConfigParam in env.parameters && env.source.None?
                ==> run.outcome.error == SourceUnreadable)
            && (EnsureTable(DdbTable, env).Ok? && EditsConfigParam in env.parameters && env.source.Some?
                ==> run.outcome.error
                    == DeidentFailed(Deidentify(env.source.value, env.parameters[EditsConfigParam]).error.reason))
  {
    if EnsureTable(DdbTable, env).Ok? {
      HandleEventAfterSetup(bucket, key, env, encode, md5);
      assert EnsureTable(DdbTable, env).value + [] == EnsureTable(DdbTable, env).value;
    }
  }

  /** Lines 157-160: after de-identification, the run is the table setup
      followed by the publishing of the de-identified dataset to the output
      key, with the digest of the source as the `before` digest. */
  lemma DeidentifiedRunPublishes(bucket: string, key: string, env: Env,
                                 encode: Dataset -> Bytes, md5: Bytes -> string)
    requires Deidentified(env)
    ensures var tail := Publish(bucket, key, OutputKey(key), env, md5(encode(env.source.value)),
                                Clean(env), encode, md5);
            && HandleEvent(bucket, key, env, encode, md5)
               == Run(EnsureTable(DdbTable, env).value + tail.trace, tail.outcome)
            && NoWrites(EnsureTable(DdbTable, env).value)
  {
    ProcessPublishes(bucket, key, env, encode, md5);
    HandleEventAfterSetup(bucket, key, env, encode, md5);
  }

  lemma ProcessPublishes(bucket: string, key: string, env: Env,
                         encode: Dataset -> Bytes, md5: Bytes -> string)
    requires Deidentified(env)
    ensures Process(bucket, key, env, encode, md5)
            == Publish(bucket, key, OutputKey(key), env, md5(encode(env.source.value)), Clean(env), encode, md5)
  {
    assert Deidentify(env.source.value, env.parameters[EditsConfigParam]) == Ok(Clean(env));
  }

  lemma HandleEventAfterSetup(bucket: string, key: string, env: Env,
                              encode: Dataset -> Bytes, md5: Bytes -> string)
    requires EnsureTable(DdbTable, env).Ok?
    ensures var rest := Process(bucket, key, env, encode, md5);
            HandleEvent(bucket, key, env, encode, md5)
            == Run(EnsureTable(DdbTable, env).value + rest.trace, rest.outcome)
  {
  }

  /** A successful run is one that got through de-identification. */
  lemma SuccessfulRunWasDeidentified(bucket: string, key: string, env: Env,
                                     encode: Dataset -> Bytes, md5: Bytes -> string)
    requires HandleEvent(bucket, key, env, encode, md5).outcome.Ok?
    ensures Deidentified(env)
  {
    if !Deidentified(env) {
      EarlyFailureWritesNothing(bucket, key, env, encode, md5);
    }
  }

  /** A successful run ends with the object, serialized, at the output key,
      then the record whose key is the audit key of the de-identified
      dataset, whose `file` is the source key (not the output key), whose
      `md5_before` digests the source as parsed and whose `md5_after`
      digests exactly the bytes written. */
  lemma SuccessfulRunRecordsWrittenObject(bucket: string, key: string, env: Env,
                                          encode: Dataset -> Bytes, md5: Bytes -> string)
    requires HandleEvent(bucket, key, env, encode, md5).outcome.Ok?
    ensures Deidentified(env) && AuditFieldsPresent(Clean(env)) && !env.putFails && !env.auditFails
    ensures var trace := HandleEvent(bucket, key, env, encode, md5).trace;
            && |trace| >= 2
            && trace[|trace| - 2] == PutObject(bucket, OutputKey(key), encode(Clean(env)))
            && trace[|trace| - 1]
               == PutAudit(DdbTable, AuditRecord(AuditKey(Clean(env)).value, key, md5(encode(env.source.value)),
                                                 md5(encode(Clean(env))), env.now))
  {
    SuccessfulRunWasDeidentified(bucket, key, env, encode, md5);
    DeidentifiedRunPublishes(bucket, key, env, encode, md5);
    var before := md5(encode(env.source.value));
    var tail := Publish(bucket, key, OutputKey(key), env, before, Clean(env), encode, md5);
    PublishWritesThenRecords(bucket, key, OutputKey(key), env, before, Clean(env), encode, md5);
    LastTwoOfAppend(EnsureTable(DdbTable, env).value, tail.trace);
  }

  /** When publishing succeeds, the write went through and exactly the
      object and then its record are produced. */
  lemma PublishWritesThenRecords(bucket: string, key: string, outKey: string, env: Env, before: string,
                                 clean: Dataset, encode: Dataset -> Bytes, md5: Bytes -> string)
    requires Publish(bucket, key, outKey, env, before, clean, encode, md5).outcome.Ok?
    ensures !env.putFails && !env.auditFails && AuditFieldsPresent(clean)
    ensures Publish(bucket, key, outKey, env, before, clean, encode, md5).trace
            == [PutObject(bucket, outKey, encode(clean)),
                PutAudit(DdbTable, RecordFor(key, clean, before, env, encode, md5))]
  {
    PublishOutcomes(bucket, key, outKey, env, before, clean, encode, md5);
  }

  lemma LastTwoOfAppend(setup: seq<Effect>, tail: seq<Effect>)
    requires |tail| == 2
    ensures var t := setup + tail;
            |t| >= 2 && t[|t| - 2] == tail[0] && t[|t| - 1] == tail[1]
  {
  }

  /** Lines 59-61: a failed object write is raised again, so a run that
      got through de-identification fails with the output key, after the
      table setup only: neither the object nor its record is written. */
  lemma FailedWriteAbortsRun(bucket: string, key: string, env: Env,
                             encode: Dataset -> Bytes, md5: Bytes -> string)
    requires Deidentified(env) && env.putFails
    ensures var run := HandleEvent(bucket, key, env, encode, md5);
            && run.outcome == Err(ObjectWriteFailed(OutputKey(key)))
            && run.trace == EnsureTable(DdbTable, env).value
            && NoWrites(run.trace)
  {
    DeidentifiedRunPublishes(bucket, key, env, encode, md5);
    PublishOutcomes(bucket, key, OutputKey(key), env, md5(encode(env.source.value)), Clean(env), encode, md5);
    assert EnsureTable(DdbTable, env).value + [] == EnsureTable(DdbTable, env).value;
  }

  /** When the audit key cannot be built, the object has already been
      written, no record is appended, and the run fails with the key's
      error. */
  lemma AuditKeyFailureLeavesObject(bucket: string, key: string, env: Env,
                                    encode: Dataset -> Bytes, md5: Bytes -> string)
    requires Deidentified(env) && !AuditFieldsPresent(Clean(env)) && !env.putFails
    ensures var run := HandleEvent(bucket, key, env, encode, md5);
            && run.outcome == Err(AuditKeyFailed(AuditKey(Clean(env)).error))
            && run.trace == EnsureTable(DdbTable, env).value + [PutObject(bucket, OutputKey(key), encode(Clean(env)))]
  {
    DeidentifiedRunPublishes(bucket, key, env, encode, md5);
    PublishOutcomes(bucket, key, OutputKey(key), env, md5(encode(env.source.value)), Clean(env), encode, md5);
  }

  /** A subject without configured replacements passes through: the
      dataset published is the source itself, so the record's two digests
      agree. */
  lemma UnmatchedSubjectKeepsDigest(env: Env, encode: Dataset -> Bytes, md5: Bytes -> string)
    requires EditsConfigParam in env.parameters && env.source.Some?
    requires SubjectUnmatched(env.source.value, env.parameters[EditsConfigParam])
    requires EnsureTable(DdbTable, env).Ok?
    ensures Deidentified(env) && Clean(env) == env.source.value
    ensures md5(encode(Clean(env))) == md5(encode(env.source.value))
  {
  }

  /** The audit key starts with the Patient ID after substitution: when the
      subject's items replace the Patient ID, the key carries the
      replacement, not the original identifier. */
  lemma AuditKeyUsesReplacedPatientId(ds: Dataset, config: Config)
    requires SubjectMatched(ds, config) && Deidentify(ds, config).Ok?
    requires LastReplacement(ItemsFor(ds, config), PatientIdTag).Some?
    requires AuditFieldsPresent(Deidentify(ds, config).value)
    ensures var auditKey := AuditKey(Deidentify(ds, config).value).value;
            var newId := Render(LastReplacement(ItemsFor(ds, config), PatientIdTag).value);
            |auditKey| > |newId| && auditKey[..|newId|] == newId && auditKey[|newId|] == KeySeparator
  {
    MatchedOverwritesListedTags(ds, config);
    AuditKeyStartsWithPatientId(Deidentify(ds, config).value);
  }
}
