/** The attribute set the de-identification works on, as the codec hands it
    over: a map from data element tags to values. The codec itself (reading
    and writing the binary file format) is not part of this model. */
module Dicom {

  import opened Results
  import opened Strings

  /** An unsigned 16-bit number. */
  newtype u16 = x: int | 0 <= x < 0x1_0000

  /** A data element tag (gggg,eeee): an ordered pair of a 16-bit group
      number and a 16-bit element number (section 7.1.1 of DICOM PS3.5). */
  datatype Tag = Tag(group: u16, element: u16)

  /** The value of a data element, as far as this model needs to see it: the
      codec's text values and integer values. */
  datatype Value = Text(text: string) | Int(number: int)

  /** A parsed object: each tag present at most once. */
  type Dataset = map<Tag, Value>

  /** Well-known tags of the DICOM data dictionary (DICOM PS3.6). */
  const PatientNameTag := Tag(0x0010, 0x0010)
  const PatientIdTag := Tag(0x0010, 0x0020)
  const SeriesDateTag := Tag(0x0008, 0x0021)
  const SeriesTimeTag := Tag(0x0008, 0x0031)
  const InstanceNumberTag := Tag(0x0020, 0x0013)

  /** What the de-identification and audit code can raise. */
  datatype Error =
    | MissingElement(tag: Tag)                   // KeyError from `ds[tag]`, AttributeError from `ds.Keyword`
    | MissingConfigKey(key: string)              // KeyError from `config[key]`
    | UnpackMismatch(key: string, parts: nat)    // ValueError from `(group, element) = key.split(',')`
    | InvalidHex(text: string)                   // `int(text, 16)` rejects a half of the key
    | TagOutOfRange(group: nat, element: nat)    // a half does not fit in 16 bits, so building the tag fails
    | NotAnInteger(tag: Tag)                     // an integer format applied to a text value

  /** Python's `str(value)`, as used by an f-string without a format. */
  function Render(v: Value): (s: string)
    ensures v.Text? ==> s == v.text
    ensures v.Int? && v.number >= 0 ==> AllDigits(s) && DecimalValue(s) == v.number
    ensures v.Int? && v.number == 0 ==> s == "0"
    ensures v.Int? && v.number > 0 ==> s[0] != '0'
    ensures v.Int? && v.number < 0 ==> |s| >= 2 && s[0] == '-' && AllDigits(s[1..]) && DecimalValue(s[1..]) == -v.number
    ensures v.Int? && v.number < 0 ==> s[1] != '0'
  {
    match v
    case Text(t) => t
    case Int(n) =>
      if n < 0 then
        DecimalValueOfDigits(-n);
        assert ("-" + Digits(-n))[1..] == Digits(-n);
        IntToString(n)
      else
        DecimalValueOfDigits(n);
        IntToString(n)
  }

  /* ---------------------------------------------------------------------
     Configuration keys "gggg,eeee"
     --------------------------------------------------------------------- */

  /** The canonical spelling of a tag as a configuration key: four
      upper-case hexadecimal digits for the group, a comma, four for the
      element. */
  function TagKey(t: Tag): (k: string)
    ensures |k| == 9 && k[4] == ','
  {
    Hex4(t.group as nat) + "," + Hex4(t.element as nat)
  }

  /** The key of a tag whose numbers are below 0x100: two zeros before each
      pair of digits. */
  lemma TagKeyOfSmallTag(t: Tag)
    requires t.group < 0x100 && t.element < 0x100
    ensures TagKey(t) == ['0', '0', HexDigitChar(t.group as nat / 16), HexDigitChar(t.group as nat % 16), ',',
                          '0', '0', HexDigitChar(t.element as nat / 16), HexDigitChar(t.element as nat % 16)]
  {
    Hex4OfByte(t.group as nat);
    Hex4OfByte(t.element as nat);
  }

  /** A key that names a tag: two comma-separated hexadecimal numbers, each
      below 0x10000. */
  predicate WellFormedTagKey(key: string)
  {
    var parts := Split(key, ',');
    && |parts| == 2
    && ParseHex(parts[0]).Some? && ParseHex(parts[0]).value < 0x1_0000
    && ParseHex(parts[1]).Some? && ParseHex(parts[1]).value < 0x1_0000
  }

  /** `(group, element) = key.split(',')` followed by the codec's tag
      constructor on the two strings: the unpack fails unless there are
      exactly two parts; each part is read as hexadecimal (group first); the
      range of both numbers is checked only after both were read. */
  function ParseTagKey(key: string): (r: Result<Tag, Error>)
    ensures r.Ok? <==> WellFormedTagKey(key)
    ensures r.Err? && r.error.UnpackMismatch? <==> |Split(key, ',')| != 2
  {
    var parts := Split(key, ',');
    if |parts| != 2 then Err(UnpackMismatch(key, |parts|))
    else
      match (ParseHex(parts[0]), ParseHex(parts[1]))
      case (None, _) => Err(InvalidHex(parts[0]))
      case (_, None) => Err(InvalidHex(parts[1]))
      case (Some(g), Some(e)) =>
        if g >= 0x1_0000 || e >= 0x1_0000 then Err(TagOutOfRange(g, e))
        else Ok(Tag(g as u16, e as u16))
  }

  /** Every tag's canonical key parses back to that tag. */
  lemma ParseTagKeyRoundTrip(t: Tag)
    ensures ParseTagKey(TagKey(t)) == Ok(t)
  {
    var g := Hex4(t.group as nat);
    var e := Hex4(t.element as nat);
    assert ',' !in g by {
      forall i | 0 <= i < |g| ensures g[i] != ',' {
        assert IsHexDigit(g[i]);
      }
    }
    assert ',' !in e by {
      forall i | 0 <= i < |e| ensures e[i] != ',' {
        assert IsHexDigit(e[i]);
      }
    }
    SplitAfterPiece(g, ',', e);
    SplitWithoutSeparator(e, ',');
    assert Split(TagKey(t), ',') == [g, e];
  }
}
