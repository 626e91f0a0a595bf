/** The audit key and record (`record_deident`, lines 102-111). The key is
    `PatientID_SeriesDate_SeriesTime_InstanceNumber`, the instance number
    zero-padded to at least three digits, read from the dataset it is given
    — in the handler, the de-identified one. The record pairs the key with
    the source object key, the digests before and after, and a timestamp;
    digests and timestamp are computed elsewhere and arrive as values. */
module Audit {

  import opened Results
  import opened Strings
  import opened Dicom

  /** The separator between the key's four fields. */
  const KeySeparator: char := '_'

  /** The item appended to the audit table. `patientId` is the attribute
      name of the table's hash key; it holds the composite audit key, not
      the bare Patient ID. */
  datatype AuditRecord = AuditRecord(
    patientId: string,
    file: string,
    md5Before: string,
    md5After: string,
    datetime: string)

  /** `ds.Keyword`: the value of a present element, an AttributeError for a
      missing one. */
  function Field(ds: Dataset, t: Tag): (r: Result<Value, Error>)
    ensures r.Ok? <==> t in ds
    ensures r.Ok? ==> r.value == ds[t]
    ensures r.Err? ==> r.error == MissingElement(t)
  {
    if t in ds then Ok(ds[t]) else Err(MissingElement(t))
  }

  /** All four key fields are present and the instance number is an
      integer. */
  predicate AuditFieldsPresent(ds: Dataset)
  {
    && PatientIdTag in ds
    && SeriesDateTag in ds
    && SeriesTimeTag in ds
    && InstanceNumberTag in ds
    && ds[InstanceNumberTag].Int?
  }

  /** Line 104: the fields are read left to right, so the first missing one
      is the one reported. */
  function AuditKey(ds: Dataset): (r: Result<string, Error>)
    ensures r.Ok? <==> AuditFieldsPresent(ds)
    ensures PatientIdTag !in ds ==> r == Err(MissingElement(PatientIdTag))
    ensures PatientIdTag in ds && SeriesDateTag !in ds ==> r == Err(MissingElement(SeriesDateTag))
    ensures PatientIdTag in ds && SeriesDateTag in ds && SeriesTimeTag !in ds
            ==> r == Err(MissingElement(SeriesTimeTag))
    ensures PatientIdTag in ds && SeriesDateTag in ds && SeriesTimeTag in ds && InstanceNumberTag !in ds
            ==> r == Err(MissingElement(InstanceNumberTag))
  {
    var patientId :- Field(ds, PatientIdTag);
    var seriesDate :- Field(ds, SeriesDateTag);
    var seriesTime :- Field(ds, SeriesTimeTag);
    var instance :- Field(ds, InstanceNumberTag);
    if !instance.Int? then Err(NotAnInteger(InstanceNumberTag))
    else
      Ok(Render(patientId) + [KeySeparator] + Render(seriesDate) + [KeySeparator]
         + Render(seriesTime) + [KeySeparator] + Pad3(instance.number))
  }

  /** Lines 103-111: the record for the object at `key`. */
  function RecordDeident(key: string, ds: Dataset, before: string, after: string, now: string)
    : Result<AuditRecord, Error>
  {
    var auditKey :- AuditKey(ds);
    Ok(AuditRecord(auditKey, key, before, after, now))
  }

  /** The record exists exactly when the key can be built; it is keyed by
      the audit key and carries the object key, both digests and the time
      unchanged; otherwise the key's error is the record's. */
  lemma RecordDeidentKeyedByAuditKey(key: string, ds: Dataset, before: string, after: string, now: string)
    ensures var r := RecordDeident(key, ds, before, after, now);
            && (r.Ok? <==> AuditFieldsPresent(ds))
            && (r.Ok? ==> r.value == AuditRecord(AuditKey(ds).value, key, before, after, now))
            && (r.Err? ==> r.error == AuditKey(ds).error)
  {
  }

  /* ---------------------------------------------------------------------
     Properties
     --------------------------------------------------------------------- */

  /** The four fields as the key renders them. */
  function KeyFields(ds: Dataset): seq<string>
    requires AuditFieldsPresent(ds)
  {
    [Render(ds[PatientIdTag]), Render(ds[SeriesDateTag]), Render(ds[SeriesTimeTag]),
     Pad3(ds[InstanceNumberTag].number)]
  }

  /** The key is the four fields joined with `_`. */
  lemma {:induction false} AuditKeyJoinsFields(ds: Dataset)
    requires AuditFieldsPresent(ds)
    ensures AuditKey(ds) == Ok(Join(KeyFields(ds), KeySeparator))
  {
    var f := KeyFields(ds);
    assert f[1..] == [f[1], f[2], f[3]];
    assert f[1..][1..] == [f[2], f[3]];
    assert f[1..][1..][1..] == [f[3]];
    assert Join(f[1..][1..], KeySeparator) == f[2] + [KeySeparator] + f[3];
    assert Join(f[1..], KeySeparator) == f[1] + [KeySeparator] + (f[2] + [KeySeparator] + f[3]);
    assert Join(f, KeySeparator)
           == f[0] + [KeySeparator] + f[1] + [KeySeparator] + f[2] + [KeySeparator] + f[3];
  }

  /** Datasets that agree on the four key fields get the same key (or the
      same error), whatever else they hold. */
  lemma AuditKeyDeterminedByFields(ds1: Dataset, ds2: Dataset)
    requires forall t :: t in {PatientIdTag, SeriesDateTag, SeriesTimeTag, InstanceNumberTag} ==>
               (t in ds1 <==> t in ds2) && (t in ds1 ==> ds1[t] == ds2[t])
    ensures AuditKey(ds1) == AuditKey(ds2)
  {
    assert PatientIdTag in {PatientIdTag, SeriesDateTag, SeriesTimeTag, InstanceNumberTag};
    assert SeriesDateTag in {PatientIdTag, SeriesDateTag, SeriesTimeTag, InstanceNumberTag};
    assert SeriesTimeTag in {PatientIdTag, SeriesDateTag, SeriesTimeTag, InstanceNumberTag};
    assert InstanceNumberTag in {PatientIdTag, SeriesDateTag, SeriesTimeTag, InstanceNumberTag};
  }

  /** When the three text fields contain no `_`, the key splits back into
      exactly its four fields, and the last one reads back as the instance
      number: the key loses nothing. */
  lemma AuditKeyRecoversFields(ds: Dataset)
    requires AuditFieldsPresent(ds)
    requires KeySeparator !in Render(ds[PatientIdTag])
    requires KeySeparator !in Render(ds[SeriesDateTag])
    requires KeySeparator !in Render(ds[SeriesTimeTag])
    ensures AuditKey(ds).Ok?
    ensures Split(AuditKey(ds).value, KeySeparator) == KeyFields(ds)
    ensures ds[InstanceNumberTag].number >= 0 ==>
              DecimalValue(Split(AuditKey(ds).value, KeySeparator)[3]) == ds[InstanceNumberTag].number
  {
    var n := ds[InstanceNumberTag].number;
    AuditKeyJoinsFields(ds);
    PaddedNumberHasNoSeparator(n);
    FourFieldsSplitBack(Render(ds[PatientIdTag]), Render(ds[SeriesDateTag]),
                        Render(ds[SeriesTimeTag]), Pad3(n));
  }

  /** Four separator-free fields joined with `_` split back into themselves. */
  lemma FourFieldsSplitBack(a: string, b: string, c: string, d: string)
    requires KeySeparator !in a && KeySeparator !in b && KeySeparator !in c && KeySeparator !in d
    ensures Split(Join([a, b, c, d], KeySeparator), KeySeparator) == [a, b, c, d]
  {
    var f := [a, b, c, d];
    forall i | 0 <= i < |f| ensures KeySeparator !in f[i] {
    }
    SplitJoin(f, KeySeparator);
  }

  /** The padded instance number is digits, after a `-` when negative, so
      it never contains the separator. */
  lemma PaddedNumberHasNoSeparator(n: int)
    ensures KeySeparator !in Pad3(n)
  {
    var p := Pad3(n);
    forall i | 0 <= i < |p| ensures p[i] != KeySeparator {
      if n >= 0 {
        assert IsDigit(p[i]);
      } else if i > 0 {
        assert p[1..][i - 1] == p[i];
      }
    }
  }

  /** The key starts with the rendered Patient ID and a `_`. */
  lemma AuditKeyStartsWithPatientId(ds: Dataset)
    requires AuditFieldsPresent(ds)
    ensures var id := Render(ds[PatientIdTag]);
            var k := AuditKey(ds).value;
            |k| > |id| && k[..|id|] == id && k[|id|] == KeySeparator
  {
    var f := KeyFields(ds);
    AuditKeyJoinsFields(ds);
    JoinFirst(f, KeySeparator);
    FieldThenSeparator(f[0], Join(f[1..], KeySeparator), Join(f, KeySeparator));
  }

  lemma FieldThenSeparator(field: string, rest: string, k: string)
    requires k == field + ([KeySeparator] + rest)
    ensures |k| > |field| && k[..|field|] == field && k[|field|] == KeySeparator
  {
    assert k[|field|] == ([KeySeparator] + rest)[0];
  }
}
