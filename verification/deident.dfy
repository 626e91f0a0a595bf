/** The de-identification engine (`perform_deident`): read the subject's
    Patient ID, look it up among the configured subjects, and overwrite the
    value of every target tag listed for that subject, in configuration
    order. The source mutates the dataset in place and raises on the first
    problem; here the result is either the rewritten dataset or `Aborted`
    carrying the reason and the dataset as far as it had been rewritten. */
module Deident {

  import opened Results
  import opened Strings
  import opened Dicom

  /** One configured replacement: a target key `"gggg,eeee"` and the value
      the tag it names receives. */
  datatype Subst = Subst(target: string, replacement: Value)

  /** Subject identifier to that subject's replacements, in the order the
      configuration document lists them. */
  type SubjectTable = map<string, seq<Subst>>

  /** The decoded configuration document: anchor key to subject table. */
  type Config = map<string, SubjectTable>

  /** The configuration key of the anchor table, the Patient ID tag spelled
      as the configuration spells it. */
  const AnchorKey: string := "0010,0020"

  /** The engine raised `reason`; `partial` is what the in-place rewrite had
      made of the dataset by then. */
  datatype Aborted = Aborted(reason: Error, partial: Dataset)

  /** The anchor key is the canonical key of the Patient ID tag, so it
      names the same tag the engine reads the subject from. */
  lemma AnchorKeyNamesPatientId()
    ensures AnchorKey == TagKey(PatientIdTag)
    ensures ParseTagKey(AnchorKey) == Ok(PatientIdTag)
  {
    TagKeyOfSmallTag(PatientIdTag);
    assert HexDigitChar(0) == '0' && HexDigitChar(1) == '1' && HexDigitChar(2) == '2';
    ParseTagKeyRoundTrip(PatientIdTag);
  }

  /** `patient_id in config_vals`: only a text value can equal one of the
      table's string keys. */
  function SubjectItems(patientId: Value, table: SubjectTable): (r: Option<seq<Subst>>)
    ensures r.Some? <==> patientId.Text? && patientId.text in table
    ensures r.Some? ==> r.value == table[patientId.text]
  {
    if patientId.Text? && patientId.text in table then Some(table[patientId.text]) else None
  }

  /** Lines 96-97 of one loop iteration: split the target key, build the
      tag, and look it up in a dataset whose tags are `present`. */
  function ResolveTarget(key: string, present: set<Tag>): (r: Result<Tag, Error>)
    ensures r.Ok? <==> ParseTagKey(key).Ok? && ParseTagKey(key).value in present
    ensures r.Ok? ==> r.value == ParseTagKey(key).value
    ensures ParseTagKey(key).Ok? && r.Err? ==> r.error == MissingElement(ParseTagKey(key).value)
    ensures ParseTagKey(key).Err? ==> r == ParseTagKey(key)
  {
    var t :- ParseTagKey(key);
    if t in present then Ok(t) else Err(MissingElement(t))
  }

  /** The substitution loop: each item in turn overwrites the value of the
      tag it names; the first item that cannot be resolved aborts with the
      earlier items already applied. Only values change, never the set of
      tags. */
  function ApplyItems(ds: Dataset, items: seq<Subst>): (r: Result<Dataset, Aborted>)
    ensures r.Ok? ==> r.value.Keys == ds.Keys
    ensures r.Err? ==> r.error.partial.Keys == ds.Keys
    decreases |items|
  {
    if |items| == 0 then Ok(ds)
    else
      match ResolveTarget(items[0].target, ds.Keys)
      case Err(e) => Err(Aborted(e, ds))
      case Ok(t) => ApplyItems(ds[t := items[0].replacement], items[1..])
  }

  /** The engine: read the Patient ID (line 90), fetch the anchor table
      (line 91), and apply the subject's items if the Patient ID is one of
      its subjects (lines 92-98); otherwise leave the dataset as it is
      (lines 99-100). */
  function Deidentify(ds: Dataset, config: Config): (r: Result<Dataset, Aborted>)
    ensures PatientIdTag !in ds ==> r == Err(Aborted(MissingElement(PatientIdTag), ds))
    ensures PatientIdTag in ds && AnchorKey !in config ==> r == Err(Aborted(MissingConfigKey(AnchorKey), ds))
    ensures SubjectUnmatched(ds, config) ==> r == Ok(ds)
    ensures r.Ok? ==> r.value.Keys == ds.Keys
    ensures r.Err? ==> r.error.partial.Keys == ds.Keys
  {
    if PatientIdTag !in ds then Err(Aborted(MissingElement(PatientIdTag), ds))
    else if AnchorKey !in config then Err(Aborted(MissingConfigKey(AnchorKey), ds))
    else
      match SubjectItems(ds[PatientIdTag], config[AnchorKey])
      case None => Ok(ds)
      case Some(items) => ApplyItems(ds, items)
  }

  /* ---------------------------------------------------------------------
     Reference semantics
     --------------------------------------------------------------------- */

  /** The dataset has a Patient ID, the configuration has the anchor table,
      and the Patient ID is not one of its subjects. */
  predicate SubjectUnmatched(ds: Dataset, config: Config)
  {
    && PatientIdTag in ds
    && AnchorKey in config
    && SubjectItems(ds[PatientIdTag], config[AnchorKey]).None?
  }

  /** The dataset has a Patient ID and it is one of the configured subjects. */
  predicate SubjectMatched(ds: Dataset, config: Config)
  {
    && PatientIdTag in ds
    && AnchorKey in config
    && SubjectItems(ds[PatientIdTag], config[AnchorKey]).Some?
  }

  /** The items configured for a matched subject. */
  function ItemsFor(ds: Dataset, config: Config): seq<Subst>
    requires SubjectMatched(ds, config)
  {
    SubjectItems(ds[PatientIdTag], config[AnchorKey]).value
  }

  /** Every item names a tag the dataset holds. */
  predicate AllTargetsPresent(items: seq<Subst>, present: set<Tag>)
  {
    forall i :: 0 <= i < |items| ==> ResolveTarget(items[i].target, present).Ok?
  }

  /** The replacement of the last item naming `t`, if any item does. */
  function LastReplacement(items: seq<Subst>, t: Tag): Option<Value>
    decreases |items|
  {
    if |items| == 0 then None
    else
      match LastReplacement(items[1..], t)
      case Some(v) => Some(v)
      case None =>
        if ParseTagKey(items[0].target) == Ok(t) then Some(items[0].replacement) else None
  }

  /** Reference result of a complete substitution: a tag named by some item
      holds the replacement of the last item naming it; every other tag
      keeps its value; no tag is added or removed. */
  function Overwritten(ds: Dataset, items: seq<Subst>): Dataset
  {
    map t | t in ds :: if LastReplacement(items, t).Some? then LastReplacement(items, t).value else ds[t]
  }

  /* ---------------------------------------------------------------------
     Properties
     --------------------------------------------------------------------- */

  /** The last item naming a tag decides that tag's value. */
  lemma {:induction false} LastReplacementOfLastNaming(items: seq<Subst>, i: nat)
    requires i < |items|
    requires ParseTagKey(items[i].target).Ok?
    requires forall j :: i < j < |items| ==> ParseTagKey(items[j].target) != ParseTagKey(items[i].target)
    ensures LastReplacement(items, ParseTagKey(items[i].target).value) == Some(items[i].replacement)
  {
    var t := ParseTagKey(items[i].target).value;
    if i == 0 {
      assert LastReplacement(items[1..], t).None? by {
        NoLaterNaming(items[1..], t);
      }
    } else {
      assert items[1..][i - 1] == items[i];
      LastReplacementOfLastNaming(items[1..], i - 1);
    }
  }

  /** No item names `t`, so no item replaces it. */
  lemma {:induction false} NoLaterNaming(items: seq<Subst>, t: Tag)
    requires forall j :: 0 <= j < |items| ==> ParseTagKey(items[j].target) != Ok(t)
    ensures LastReplacement(items, t).None?
    decreases |items|
  {
    if |items| > 0 {
      NoLaterNaming(items[1..], t);
    }
  }

  /** Applying one resolvable item and then the rest equals the reference
      result of all of them. */
  lemma {:induction false} OverwrittenStep(ds: Dataset, items: seq<Subst>, t: Tag)
    requires |items| >= 1
    requires ParseTagKey(items[0].target) == Ok(t) && t in ds
    ensures Overwritten(ds[t := items[0].replacement], items[1..]) == Overwritten(ds, items)
  {
    var left := Overwritten(ds[t := items[0].replacement], items[1..]);
    var right := Overwritten(ds, items);
    assert left.Keys == right.Keys;
    forall u | u in left
      ensures left[u] == right[u]
    {
    }
  }

  /** Substituting nothing leaves the dataset as it is. */
  lemma OverwrittenNothing(ds: Dataset)
    ensures Overwritten(ds, []) == ds
  {
  }

  /** A complete substitution, applied again, changes nothing more. */
  lemma OverwrittenIdempotent(ds: Dataset, items: seq<Subst>)
    ensures Overwritten(Overwritten(ds, items), items) == Overwritten(ds, items)
  {
  }

  /** The loop completes exactly when every item names a tag the dataset
      holds, and then its result is the reference result. */
  lemma {:induction false} ApplyItemsMeetsReference(ds: Dataset, items: seq<Subst>)
    ensures ApplyItems(ds, items).Ok? <==> AllTargetsPresent(items, ds.Keys)
    ensures ApplyItems(ds, items).Ok? ==> ApplyItems(ds, items).value == Overwritten(ds, items)
    decreases |items|
  {
    if |items| == 0 {
      OverwrittenNothing(ds);
    } else {
      match ResolveTarget(items[0].target, ds.Keys)
      case Err(e) =>
      case Ok(t) =>
        var ds' := ds[t := items[0].replacement];
        assert ds'.Keys == ds.Keys;
        ApplyItemsMeetsReference(ds', items[1..]);
        OverwrittenStep(ds, items, t);
        assert AllTargetsPresent(items[1..], ds.Keys) <==> AllTargetsPresent(items, ds.Keys) by {
          if AllTargetsPresent(items[1..], ds.Keys) {
            forall i | 0 <= i < |items|
              ensures ResolveTarget(items[i].target, ds.Keys).Ok?
            {
              if i > 0 {
                assert items[i] == items[1..][i - 1];
              }
            }
          }
          if AllTargetsPresent(items, ds.Keys) {
            forall i | 0 <= i < |items[1..]|
              ensures ResolveTarget(items[1..][i].target, ds.Keys).Ok?
            {
              assert items[1..][i] == items[i + 1];
            }
          }
        }
    }
  }

  /** The first item that cannot be resolved aborts the loop with that
      item's error, and the dataset it leaves behind is the reference result
      of the items before it. */
  lemma {:induction false} ApplyItemsAbortsAtFirstUnresolved(ds: Dataset, items: seq<Subst>, i: nat)
    requires i < |items|
    requires AllTargetsPresent(items[..i], ds.Keys)
    requires ResolveTarget(items[i].target, ds.Keys).Err?
    ensures ApplyItems(ds, items)
            == Err(Aborted(ResolveTarget(items[i].target, ds.Keys).error, Overwritten(ds, items[..i])))
    decreases i
  {
    if i == 0 {
      OverwrittenNothing(ds);
    } else {
      assert items[..i][0] == items[0];
      var t := ResolveTarget(items[0].target, ds.Keys).value;
      var ds' := ds[t := items[0].replacement];
      assert ds'.Keys == ds.Keys;
      assert items[1..][i - 1] == items[i];
      var before := items[1..][..i - 1];
      assert AllTargetsPresent(before, ds'.Keys) by {
        forall k | 0 <= k < |before|
          ensures ResolveTarget(before[k].target, ds'.Keys).Ok?
        {
          assert before[k] == items[..i][k + 1];
        }
      }
      ApplyItemsAbortsAtFirstUnresolved(ds', items[1..], i - 1);
      assert items[..i][1..] == items[1..][..i - 1];
      OverwrittenStep(ds, items[..i], t);
    }
  }

  /** A matched subject: the engine succeeds exactly when every listed
      target is present; then each present tag holds the replacement of the
      last item naming it, or its old value if no item names it, and the set
      of tags is unchanged. */
  lemma MatchedOverwritesListedTags(ds: Dataset, config: Config)
    requires SubjectMatched(ds, config)
    ensures Deidentify(ds, config).Ok? <==> AllTargetsPresent(ItemsFor(ds, config), ds.Keys)
    ensures Deidentify(ds, config).Ok? ==>
      && Deidentify(ds, config).value.Keys == ds.Keys
      && forall t :: t in ds ==>
           Deidentify(ds, config).value[t]
           == (if LastReplacement(ItemsFor(ds, config), t).Some?
               then LastReplacement(ItemsFor(ds, config), t).value
               else ds[t])
  {
    ApplyItemsMeetsReference(ds, ItemsFor(ds, config));
  }

  /** A listed item that no later item overrides leaves its tag holding
      exactly its replacement. */
  lemma ListedTargetHoldsReplacement(ds: Dataset, config: Config, i: nat)
    requires SubjectMatched(ds, config)
    requires Deidentify(ds, config).Ok?
    requires i < |ItemsFor(ds, config)|
    requires forall j :: i < j < |ItemsFor(ds, config)| ==>
               ParseTagKey(ItemsFor(ds, config)[j].target) != ParseTagKey(ItemsFor(ds, config)[i].target)
    ensures ParseTagKey(ItemsFor(ds, config)[i].target).Ok?
    ensures var t := ParseTagKey(ItemsFor(ds, config)[i].target).value;
            t in Deidentify(ds, config).value
            && Deidentify(ds, config).value[t] == ItemsFor(ds, config)[i].replacement
  {
    var items := ItemsFor(ds, config);
    ApplyItemsMeetsReference(ds, items);
    assert ResolveTarget(items[i].target, ds.Keys).Ok?;
    LastReplacementOfLastNaming(items, i);
  }

  /** A target that cannot be resolved (a missing tag, a key that does not
      split into two parts, a bad hexadecimal number) aborts the engine,
      after the items listed before it have been applied. */
  lemma MissingTargetAborts(ds: Dataset, config: Config, i: nat)
    requires SubjectMatched(ds, config)
    requires i < |ItemsFor(ds, config)|
    requires AllTargetsPresent(ItemsFor(ds, config)[..i], ds.Keys)
    requires ResolveTarget(ItemsFor(ds, config)[i].target, ds.Keys).Err?
    ensures Deidentify(ds, config)
            == Err(Aborted(ResolveTarget(ItemsFor(ds, config)[i].target, ds.Keys).error,
                           Overwritten(ds, ItemsFor(ds, config)[..i])))
  {
    ApplyItemsAbortsAtFirstUnresolved(ds, ItemsFor(ds, config), i);
  }

  /** Running the engine on its own output gives the same dataset again when
      either the new Patient ID is not a configured subject (the second run
      passes the dataset through) or the Patient ID was not changed (the
      second run assigns the same values again). */
  lemma DeidentifyTwiceIsOnce(ds: Dataset, config: Config, once: Dataset)
    requires Deidentify(ds, config) == Ok(once)
    requires PatientIdTag in once
    requires SubjectUnmatched(once, config) || once[PatientIdTag] == ds[PatientIdTag]
    ensures Deidentify(once, config) == Ok(once)
  {
    if !SubjectUnmatched(once, config) && SubjectMatched(ds, config) {
      var items := ItemsFor(ds, config);
      ApplyItemsMeetsReference(ds, items);
      assert once == Overwritten(ds, items);
      ApplyItemsMeetsReference(once, items);
      OverwrittenIdempotent(ds, items);
    }
  }

  /** The configuration shown in the engine's documentation: subject
      `111111` becomes `Anon^100` with Patient ID `100`. */
  function ExampleConfig(): Config
  {
    map[AnchorKey := map["111111" := [Subst("0010,0010", Text("Anon^100")), Subst("0010,0020", Text("100"))]]]
  }

  /** On that configuration, a dataset of subject `111111` that has a
      patient name gets exactly those two values and nothing else changes. */
  lemma ExampleSubjectRenamed(ds: Dataset)
    requires PatientIdTag in ds && ds[PatientIdTag] == Text("111111")
    requires PatientNameTag in ds
    ensures Deidentify(ds, ExampleConfig())
            == Ok(ds[PatientNameTag := Text("Anon^100")][PatientIdTag := Text("100")])
  {
    var items := [Subst("0010,0010", Text("Anon^100")), Subst("0010,0020", Text("100"))];
    assert SubjectItems(ds[PatientIdTag], ExampleConfig()[AnchorKey]) == Some(items);
    assert Deidentify(ds, ExampleConfig()) == ApplyItems(ds, items);
    PatientNameKeyParses();
    AnchorKeyNamesPatientId();
    ApplyTwoItems(ds, items[0], items[1], PatientNameTag, PatientIdTag);
  }

  lemma PatientNameKeyParses()
    ensures ParseTagKey("0010,0010") == Ok(PatientNameTag)
  {
    TagKeyOfSmallTag(PatientNameTag);
    assert HexDigitChar(0) == '0' && HexDigitChar(1) == '1';
    ParseTagKeyRoundTrip(PatientNameTag);
  }

  /** Two resolvable items are applied one after the other. */
  lemma ApplyTwoItems(ds: Dataset, a: Subst, b: Subst, ta: Tag, tb: Tag)
    requires ParseTagKey(a.target) == Ok(ta) && ta in ds
    requires ParseTagKey(b.target) == Ok(tb) && tb in ds
    ensures ApplyItems(ds, [a, b]) == Ok(ds[ta := a.replacement][tb := b.replacement])
  {
    var once := ds[ta := a.replacement];
    assert [a, b][1..] == [b];
    assert [b][1..] == [];
    assert ApplyItems(once, [b]) == ApplyItems(once[tb := b.replacement], []);
  }
}
