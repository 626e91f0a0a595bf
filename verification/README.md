# s3-dicom-deident, modelled in Dafny

`s3-dicom-deident.py` is an AWS Lambda handler. An S3 event names a DICOM object. The handler:

- reads the object and parses it with pydicom;
- rewrites selected attributes of configured subjects, following a JSON document from the SSM Parameter Store;
- writes the result next to the source under an `output` directory;
- appends an audit record to a DynamoDB table.

The audit record holds a composite key, the source key, MD5 digests of the object before and after, and a timestamp.

This project models the pure logic inside that handler, over immutable values.

- **`Deident`**: the de-identification engine, `perform_deident`.
  - A dataset is a `map<Tag, Value>`.
  - The configuration is an anchor table mapping subject identifiers to ordered lists of `"gggg,eeee"` target keys and their replacement values.
  - The engine returns the rewritten dataset. When the source raises, the engine returns `Aborted(reason, partial)`. `partial` is the dataset as the in-place loop had left it when it raised.
- **`Dicom`**: tags, values, and the parsing of a `"gggg,eeee"` key. The split happens in the handler; the hexadecimal reading and range check happen in the codec's tag constructor.
- **`OutputPath`**: the output key from `write_dicom`. `os.path.split`, `str.split`, `'/'.join` and `os.path.join` are followed character by character. The lemmas restate the result over the key's `/`-separated segments.
- **`Audit`**: the audit key `PatientID_SeriesDate_SeriesTime_InstanceNumber:03` and the audit record, from `record_deident`.
- **`Handler`**: one invocation of `lambda_handler`.
  - An invocation is a sequence of steps, each of which can raise and so abort the rest.
  - The services are described by an `Env` value: which tables exist, the parameter store, the parsed source, and which calls fail.
  - The codec's serializer (`encode`) and the digest (`md5`) are function parameters.
  - A run yields the trace of durable effects (table creation, object write, audit append) and the outcome.
- **`Strings`**: Python's `str.split` and `sep.join` for a one-character separator, `str(int)`, the `03` format specification and `int(s, 16)`. It also holds the round trips between them.
- **`Results`**: `Option` and `Result`.

Behaviours of the code that the model keeps:

- A subject that is not configured passes through unchanged. The code only prints a message; it does not abort.
- A configured target tag that is missing from the dataset raises. It is not skipped.
- Replacement values are assigned without a type check.
- No key shape is rejected by the output path computation.
- A failed object write is printed and raised again (lines 59-61). So a run whose write fails appends no audit record.

## Model

| member | source | states |
|---|---|---|
| Deident.Deidentify | s3-dicom-deident.py:78-100 | Each of these aborts with nothing changed: a dataset without Patient ID (0010,0020), and a configuration without the `"0010,0020"` anchor table. A subject not in the anchor table gets the dataset back unchanged. Success or abort never adds or removes a tag. |
| Deident.AnchorKeyNamesPatientId | s3-dicom-deident.py:90-91 | The anchor key `"0010,0020"` is the canonical key of the tag read on line 90, and it parses back to that tag. |
| Deident.SubjectItems | s3-dicom-deident.py:92-93 | The subject's items are found exactly when the Patient ID is a text value that is a key of the anchor table. They are that table's entry. |
| Deident.ResolveTarget | s3-dicom-deident.py:96-97 | An item's target resolves exactly when its key parses to a tag the dataset holds. A tag that is absent is a missing-element error. A key that does not parse is the parse error. |
| Deident.ApplyItems | s3-dicom-deident.py:94-98 | The substitution loop keeps the dataset's set of tags, whether it completes or aborts. |
| Deident.ApplyItemsMeetsReference | s3-dicom-deident.py:94-98 | The loop completes exactly when every item names a present tag. It then equals the reference result: each named tag holds the last replacement for it, and every other tag keeps its value. |
| Deident.ApplyItemsAbortsAtFirstUnresolved | s3-dicom-deident.py:94-98 | The first unresolvable item aborts the loop with that item's error. The dataset left behind is the reference result of the items before it. |
| Deident.MatchedOverwritesListedTags | s3-dicom-deident.py:92-98 | For a configured subject, the engine succeeds exactly when all targets are present. Listed tags then hold their (last) replacement, unlisted tags keep their values, and the tag set is unchanged. |
| Deident.ListedTargetHoldsReplacement | s3-dicom-deident.py:94-98 | A listed item that no later item overrides leaves its tag holding exactly its replacement. |
| Deident.MissingTargetAborts | s3-dicom-deident.py:94-98 | A target that is missing or malformed makes the engine fail with that error. Substitutions of the earlier items have already been applied to the partial dataset. |
| Deident.DeidentifyTwiceIsOnce | s3-dicom-deident.py:90-98 | Running the engine on its own output changes nothing, in two cases: the new Patient ID is not a configured subject, or the Patient ID was not changed. |
| Deident.ExampleSubjectRenamed | s3-dicom-deident.py:79-98 | On the configuration shown in the docstring, subject `111111` becomes `Anon^100` with Patient ID `100`, and nothing else changes. |
| Deident.ApplyTwoItems | s3-dicom-deident.py:94-98 | Two resolvable items are assigned one after the other, in order. |
| Dicom.Render | s3-dicom-deident.py:104 | `str(value)`: a text value unchanged. An integer as decimal digits denoting it, after a `-` when negative, with no leading zero; zero itself is exactly `0`. |
| Dicom.ParseTagKey | s3-dicom-deident.py:96-97 | It succeeds exactly when the key is two comma-separated hexadecimal numbers, each below 0x10000. The unpack error happens exactly when the key does not split into two parts. |
| Dicom.ParseTagKeyRoundTrip | s3-dicom-deident.py:96-97 | Every tag's canonical `"gggg,eeee"` key parses back to that tag. |
| Dicom.TagKeyOfSmallTag | s3-dicom-deident.py:81-85 | The canonical key of a tag whose numbers are below 0x100 puts `00` before each pair of hexadecimal digits, as in the docstring's keys. |
| Strings.Join | s3-dicom-deident.py:54 | No contract; `'/'.join`, specified by JoinSplit, SplitJoin and JoinSnoc. |
| Strings.Digits | s3-dicom-deident.py:104 | `str(n)` for n >= 0: at least one decimal digit, no leading zero when n > 0, and exactly `0` for n = 0. Its value is n by DecimalValueOfDigits. |
| Strings.IntToString | s3-dicom-deident.py:104 | No contract; `str(n)`, specified through Dicom.Render, Digits and DecimalValueOfDigits. |
| Strings.Split | s3-dicom-deident.py:54 | `str.split` always returns at least one piece, and no piece contains the separator. |
| Strings.JoinSplit | s3-dicom-deident.py:54 | Joining the pieces of a split restores the string. |
| Strings.SplitJoin | s3-dicom-deident.py:54 | Splitting a join of separator-free pieces gives back those pieces. |
| Strings.JoinSnoc | s3-dicom-deident.py:54 | Joining one more piece appends the separator and that piece. |
| Strings.Pad3 | s3-dicom-deident.py:104 | `format(n, '03')` has width max(3, len(str(n))), so it never truncates. Its digits denote abs(n), after a `-` when n is negative, and end with the digits of n. |
| Strings.PadDigits | s3-dicom-deident.py:104 | Zero padding adds only leading zeros, keeps the digits of the number at the end, and keeps the value. |
| Strings.ParseHex | s3-dicom-deident.py:96-97 | Reading hexadecimal succeeds exactly on a non-empty string of hexadecimal digits. |
| Strings.Hex4 | s3-dicom-deident.py:81-91 | The four-digit hexadecimal spelling of a 16-bit number parses back to it. |
| Strings.DecimalValueOfDigits | s3-dicom-deident.py:104 | The decimal digits of n denote n. |
| Audit.Field | s3-dicom-deident.py:104 | An attribute read yields the element's value when present, and a missing-element error otherwise. |
| Audit.AuditKey | s3-dicom-deident.py:104 | A key is built exactly when Patient ID, Series Date, Series Time and an integer Instance Number are present. Otherwise the first missing field, in that order, is the error. |
| Audit.AuditKeyJoinsFields | s3-dicom-deident.py:104 | The key is the rendered Patient ID, Series Date, Series Time and padded Instance Number, joined with `_`. |
| Audit.AuditKeyDeterminedByFields | s3-dicom-deident.py:104 | Datasets that agree on the four key fields get the same key or the same error, whatever other fields they hold. |
| Audit.AuditKeyRecoversFields | s3-dicom-deident.py:104 | When the three text fields have no `_`, the key splits back into exactly its four fields. The last field reads back as a non-negative instance number. |
| Audit.PaddedNumberHasNoSeparator | s3-dicom-deident.py:104 | The padded instance number never contains `_`. |
| Audit.AuditKeyStartsWithPatientId | s3-dicom-deident.py:104 | The key starts with the rendered Patient ID followed by `_`. |
| Audit.RecordDeident | s3-dicom-deident.py:102-111 | No contract; the record, specified by RecordDeidentKeyedByAuditKey. |
| Audit.RecordDeidentKeyedByAuditKey | s3-dicom-deident.py:102-111 | A record exists exactly when the key can be built. It holds the audit key, the object key, both digests and the timestamp unchanged. Otherwise the key's error is the record's. |
| OutputPath.PathSplit | s3-dicom-deident.py:53 | `os.path.split`: the file part has no `/`, ends the key, and is preceded by `/` unless it is the whole key. The directory part is a prefix of the key, followed only by slashes up to the file part. It is empty exactly when the key has no `/`. It ends in `/` only when it is all slashes, and when everything before the file part is slashes it is kept whole, so both parts are determined. |
| OutputPath.PathJoin | s3-dicom-deident.py:55 | `os.path.join` step: an absolute second part replaces the first. Otherwise the result starts with the first part and ends with the second. Exactly one `/` separates them when the first part is non-empty and does not end in `/`; otherwise nothing does. |
| OutputPath.OutputKey | s3-dicom-deident.py:53-55 | No contract; the output key, specified by OutputKeyEndsInStageAndFile, OutputKeyReplacesStage, OutputKeyWithoutDirectory, OutputKeyAbsolute, OutputKeyShallowAbsolute and OutputKeyEmptySegmentBeforeStage. |
| OutputPath.Relocate | s3-dicom-deident.py:54-55 | No contract; lines 54-55 given the split key, specified by RelocateEndsInStageAndFile and RelocateSegments. |
| OutputPath.Stem | s3-dicom-deident.py:54 | No contract; the directory part without its last segment, specified by StemOfJoin. |
| OutputPath.LastIndexOf | s3-dicom-deident.py:53 | The index of the last `/` in the key, or -1 when there is none. |
| OutputPath.TrimTrailing | s3-dicom-deident.py:53 | Stripping trailing slashes leaves a prefix that does not end in `/`, followed only by slashes. |
| OutputPath.OutputKeyReplacesStage | s3-dicom-deident.py:52-55 | For `d1/…/dn/file` with non-empty directories, the output key is `d1/…/d(n-1)/output/file`. An absolute key needs at least two directories. |
| OutputPath.OutputKeyAbsolute | s3-dicom-deident.py:52-55 | `/parent/stage/file` becomes `/parent/output/file`, as the line 52 comment shows. |
| OutputPath.OutputKeyWithoutDirectory | s3-dicom-deident.py:53-55 | A key without a directory becomes `output/<key>` rather than an error. |
| OutputPath.OutputKeyShallowAbsolute | s3-dicom-deident.py:53-55 | `/stage/file` becomes `output/file`: the leading `/` is lost. |
| OutputPath.OutputKeyEmptySegmentBeforeStage | s3-dicom-deident.py:53-55 | `parent//stage/file` becomes `parent/output/file`, not `parent//output/file`: the empty segment is not kept. |
| OutputPath.OutputKeyEndsInStageAndFile | s3-dicom-deident.py:53-55 | Every output key ends with a whole `output` segment followed by `/` and the key's file name. |
| OutputPath.RelocateSegments | s3-dicom-deident.py:54-55 | Joining `output` and the file onto the directory part without its last segment gives the segments with the last directory replaced. |
| OutputPath.StemOfJoin | s3-dicom-deident.py:54 | Dropping the last segment of a joined directory path gives the join of the other segments. |
| Handler.EnsureTable | s3-dicom-deident.py:120-146 | An existing table is loaded with no effect. Otherwise, when creation succeeds, exactly one table is created, under the fixed name `dicom-edits`. It fails exactly when the table is absent and creation fails. |
| Handler.EnsureTableThenPresent | s3-dicom-deident.py:120-146 | After a successful setup the table exists, so the next invocation loads it and creates nothing. |
| Handler.HandleEvent | s3-dicom-deident.py:148-170 | No contract; one invocation, specified by HandleEventShape, EarlyFailureWritesNothing, DeidentifiedRunPublishes, SuccessfulRunRecordsWrittenObject, FailedWriteAbortsRun and AuditKeyFailureLeavesObject. |
| Handler.Process | s3-dicom-deident.py:152-156 | No contract; the steps after table setup, specified by EarlyFailureWritesNothing and DeidentifiedRunPublishes. |
| Handler.Publish | s3-dicom-deident.py:157-160 | No contract; the write and the audit append, specified by PublishOutcomes, PublishShape and PublishWritesThenRecords. |
| Handler.HandleEventShape | s3-dicom-deident.py:148-170 | A run succeeds exactly when it ends with an audit record, and then answers 200 with the key. Every audit record directly follows an object write. A failed write leaves no object and fails the run. |
| Handler.EarlyFailureWritesNothing | s3-dicom-deident.py:152-156 | A run that does not get through de-identification writes nothing. It fails with the first failing step's error: table, configuration, source, then engine. |
| Handler.DeidentifiedRunPublishes | s3-dicom-deident.py:155-160 | After de-identification, the run is the table setup followed by publishing. The de-identified dataset goes to the output key, and the `before` digest is that of the source. |
| Handler.PublishOutcomes | s3-dicom-deident.py:157-160 | Every way publishing can end. A failed write stops with nothing written. Otherwise the object is written and then, unless building the key or appending fails, its record. |
| Handler.PublishShape | s3-dicom-deident.py:157-160 | Publishing succeeds exactly when it ends with the record. The record follows the write, which comes first. A failed write leaves nothing. |
| Handler.PublishWritesThenRecords | s3-dicom-deident.py:157-160 | Successful publishing means the write and the append went through. The effects are exactly the object, then its record. |
| Handler.SuccessfulRunWasDeidentified | s3-dicom-deident.py:152-160 | A successful run got through every step before publishing. |
| Handler.SuccessfulRunRecordsWrittenObject | s3-dicom-deident.py:155-160 | A successful run ends with two effects: the serialized de-identified object at the output key, then its record. The record's key is the audit key of the de-identified dataset and its `file` is the source key. `md5_before` digests the source and `md5_after` digests exactly the bytes written. |
| Handler.FailedWriteAbortsRun | s3-dicom-deident.py:50-61 | A failed object write is raised again. The run fails with the output key, and after the table setup neither object nor record is written. |
| Handler.AuditKeyFailureLeavesObject | s3-dicom-deident.py:159-160 | When the audit key cannot be built, the object is already written, no record follows, and the run fails with the key's error. |
| Handler.UnmatchedSubjectKeepsDigest | s3-dicom-deident.py:155-158 | An unconfigured subject is published as parsed, so the two digests in its record agree. |
| Handler.AuditKeyUsesReplacedPatientId | s3-dicom-deident.py:156-160 | When the subject's items replace the Patient ID, the audit key starts with the replacement, not the original identifier. |
| Handler.AppendAfterSetup | s3-dicom-deident.py:152-160 | Table setup placed before the publishing effects keeps their shape: records follow writes, nothing is written when publishing wrote nothing, and the trace ends with a record exactly when publishing did. |

## Left out

- AWS I/O is not modelled.
  - S3 reads and writes, the SSM fetch, DynamoDB `Table.load`, `create_table` and `put_item` are network calls whose library semantics are not visible here.
  - Their outcomes are fields of `Env`: `tables`, `createFails`, `parameters`, `source`, `putFails` and `auditFails`.
  - `Env.tables` stands for "load succeeds". Load failures for reasons other than a missing table are folded into it.
- The pydicom codec (`dcmread`, `write_dataset_to_bytes`) is not modelled.
  - The dataset is a `map<Tag, Value>`.
  - Serialization is the opaque `encode` parameter.
  - A failed read is `Env.source == None`. `read_dicom` prints the error and then fails on the unbound `ds`, so the model raises `SourceUnreadable`.
- `hashlib.md5` is the opaque `md5` parameter. Digest properties depend on the codec and the hash, so only equal inputs giving equal digests is stated.
- `datetime.now(timezone.utc).isoformat()` is the `Env.now` parameter.
- `json.loads` is not modelled: the parameter store holds already-decoded configurations. A fetch or decode failure is an absent parameter.
- Event parsing and `urllib.parse.unquote_plus` are not modelled: the handler receives the bucket and the decoded key.
- The response's `Content-Type` header and the JSON body, whose key is spelled `"key "`, are not modelled. `Response` keeps the status code and the echoed key.
- Serialization (`write_dataset_to_bytes`, lines 155 and 157) and value assignment (line 98) are assumed not to raise. pydicom can raise in both, for example when a text replacement does not fit a numeric VR. No `Run` shows such a failure, which would abort the invocation before the object write. The properties that depend on this assumption:
  - Deident.MatchedOverwritesListedTags, Deident.ApplyItemsMeetsReference and Deident.Deidentify: success exactly when all targets are present;
  - Handler.EarlyFailureWritesNothing and Handler.PublishOutcomes: the list of ways a run can fail;
  - Handler.HandleEventShape: success exactly when the run ends with a record.
- pydicom's value setter may also convert an assigned value according to the element's VR. The model assigns the configured value as is.
- Values are either text or integer. Other value kinds (person names, multi-valued elements, sequences) are rendered as text in the model.
- Dicom.ParseTagKey: reads each half strictly, as a non-empty string of ASCII hexadecimal digits. Python's `int(s, 16)` accepts more. Examples: surrounding whitespace, a sign, a `0x` prefix, `_` between digits, and non-ASCII decimal digits (`int('１０', 16) == 16`). So keys such as `" 0x10,0x20"` fail in the model but are accepted by the source.
- Audit.AuditKey: requires Instance Number to be an integer value. A text Instance Number is an error in the model (`NotAnInteger`). That matches Python before 3.10, where `format('12', '03')` raises `ValueError`. From Python 3.10 on it pads on the right instead (`format('12', '03') == '120'`), and the model does not cover that. pydicom's IS values and empty elements are not distinguished.
- Handler.EnsureTable: the creation quirk on line 128 (the table is created under `DDB_TABLE` whatever name was asked for) is modelled. The handler only ever passes `DDB_TABLE`, so the quirk has no visible effect.
- Concurrency and Lambda retries are not modelled: one invocation is one pure function of its inputs.
