/**
 * The coordinate codec of the location model field: `parse_location`, the
 * value hooks of `LocationField` and its constructor.
 *
 * Python's `float()` on one segment of text is the parameter
 * `float: string -> Option<F>` (None stands for the ValueError it raises) and
 * `str()` of a float is the parameter `show: F -> string`; `F` is the type of
 * the numbers themselves. Nothing is assumed about either unless a lemma says so.
 */
module Models {
  import opened PyStr

  datatype Option<+T> = None | Some(value: T)

  datatype Result<+T, +E> = Ok(value: T) | Err(error: E)

  /** The three ValidationErrors `parse_location` raises, by cause. */
  datatype LocationError =
    | BadCount      // the text does not split into exactly two segments
    | BadLatitude   // the first segment is not a float
    | BadLongitude  // the second segment is not a float

  /** The separator between latitude and longitude in the stored text. */
  const Separator: char := ','

  /**
   * `parse_location(location_string)`: split on the separator, insist on two
   * segments, then convert the latitude and then the longitude.
   * The segment count is checked first: it fails exactly when the text does
   * not hold one separator, whatever the conversion would make of the segments.
   */
  function ParseLocation<F>(text: string, float: string -> Option<F>): (r: Result<(F, F), LocationError>)
    ensures r == Err(BadCount) <==> Count(text, Separator) != 1
  {
    var args := Split(text, Separator);
    if |args| != 2 then Err(BadCount)
    else
      match float(args[0])
      case None => Err(BadLatitude)
      case Some(lat) =>
        match float(args[1])
        case None => Err(BadLongitude)
        case Some(lng) => Ok((lat, lng))
  }

  /** `text` holds exactly one separator, at position `i`. */
  ghost predicate SeparatorOnlyAt(text: string, i: int)
  {
    0 <= i < |text| && text[i] == Separator &&
    Separator !in text[..i] && Separator !in text[i + 1..]
  }

  /** With the only separator at `i`, the two segments are the texts on either side of it. */
  lemma SegmentsAt(text: string, i: int)
    requires SeparatorOnlyAt(text, i)
    ensures Split(text, Separator) == [text[..i], text[i + 1..]]
  {
    assert text == text[..i] + [Separator] + text[i + 1..];
    SplitAtOnly(text[..i], text[i + 1..], Separator);
  }

  /** Text that holds one separator has it at the end of the first segment. */
  lemma SeparatorAfterFirstSegment(text: string) returns (i: int)
    requires Count(text, Separator) == 1
    ensures SeparatorOnlyAt(text, i)
    ensures Split(text, Separator) == [text[..i], text[i + 1..]]
  {
    var parts := Split(text, Separator);
    assert |parts| == 2;
    assert Separator !in parts[0] && Separator !in parts[1];
    assert Join(parts, Separator) == parts[0] + [Separator] + parts[1] by {
      assert parts[1..] == [parts[1]];
    }
    i := |parts[0]|;
    assert text[..i] == parts[0];
    assert text[i + 1..] == parts[1];
    assert parts == [parts[0], parts[1]];
  }

  /** The separator count test passes exactly when the text has one separator position. */
  lemma OneSeparator(text: string)
    ensures Count(text, Separator) == 1 <==> exists i :: SeparatorOnlyAt(text, i)
  {
    if Count(text, Separator) == 1 {
      var i := SeparatorAfterFirstSegment(text);
    }
    forall i | SeparatorOnlyAt(text, i) ensures Count(text, Separator) == 1 {
      SegmentsAt(text, i);
    }
  }

  /**
   * The latitude error is raised exactly when there is one separator and the
   * text before it does not convert, whatever follows the separator.
   */
  lemma LatitudeError<F>(text: string, float: string -> Option<F>)
    ensures ParseLocation(text, float) == Err(BadLatitude) <==>
      exists i :: SeparatorOnlyAt(text, i) && float(text[..i]).None?
  {
    if ParseLocation(text, float) == Err(BadLatitude) {
      var i := SeparatorAfterFirstSegment(text);
      assert SeparatorOnlyAt(text, i) && float(text[..i]).None?;
    }
    if i :| SeparatorOnlyAt(text, i) && float(text[..i]).None? {
      SegmentsAt(text, i);
    }
  }

  /**
   * The longitude error is raised exactly when there is one separator, the
   * latitude converts and the longitude does not.
   */
  lemma LongitudeError<F>(text: string, float: string -> Option<F>)
    ensures ParseLocation(text, float) == Err(BadLongitude) <==>
      exists i :: SeparatorOnlyAt(text, i) && float(text[..i]).Some? && float(text[i + 1..]).None?
  {
    if ParseLocation(text, float) == Err(BadLongitude) {
      var i := SeparatorAfterFirstSegment(text);
      assert SeparatorOnlyAt(text, i) && float(text[..i]).Some? && float(text[i + 1..]).None?;
    }
    if i :| SeparatorOnlyAt(text, i) && float(text[..i]).Some? && float(text[i + 1..]).None? {
      SegmentsAt(text, i);
    }
  }

  /**
   * On success the pair is the conversion of the text before the only
   * separator and of the text after it, and nothing else succeeds.
   */
  lemma ParseSuccess<F>(text: string, float: string -> Option<F>, lat: F, lng: F)
    ensures ParseLocation(text, float) == Ok((lat, lng)) <==>
      exists i :: SeparatorOnlyAt(text, i) && float(text[..i]) == Some(lat) && float(text[i + 1..]) == Some(lng)
  {
    if ParseLocation(text, float) == Ok((lat, lng)) {
      var i := SeparatorAfterFirstSegment(text);
      assert SeparatorOnlyAt(text, i) && float(text[..i]) == Some(lat) && float(text[i + 1..]) == Some(lng);
    }
    if i :| SeparatorOnlyAt(text, i) && float(text[..i]) == Some(lat) && float(text[i + 1..]) == Some(lng) {
      SegmentsAt(text, i);
    }
  }

  // ---------------------------------------------------------------------
  // The value hooks of LocationField
  // ---------------------------------------------------------------------

  /**
   * The Python values the hooks see: None, a string, or a tuple (of numbers,
   * as `to_python` and `from_db_value` build them).
   */
  datatype Value<F> = Null | Text(text: string) | Tuple(items: seq<F>)

  /** The outcome of `get_prep_value` when `value[0]` or `value[1]` does not exist (IndexError). */
  datatype PrepError = IndexOutOfRange

  /** A parse result as the value the hooks return: the pair becomes a 2-tuple. */
  function AsValue<F>(r: Result<(F, F), LocationError>): (v: Result<Value<F>, LocationError>)
    ensures v.Ok? <==> r.Ok?
    ensures v.Ok? ==> v.value == Tuple([r.value.0, r.value.1])
    ensures v.Err? ==> v.error == r.error
  {
    match r
    case Ok((lat, lng)) => Ok(Tuple([lat, lng]))
    case Err(e) => Err(e)
  }

  /**
   * `from_db_value(value)`: the column holds NULL or text. NULL passes through
   * as None; any text is decoded by `parse_location`, errors included.
   */
  function FromDbValue<F>(value: Option<string>, float: string -> Option<F>): (r: Result<Value<F>, LocationError>)
    ensures value.None? <==> r == Ok(Null)
    ensures value.Some? ==> r == AsValue(ParseLocation(value.value, float))
  {
    match value
    case None => Ok(Null)
    case Some(text) => AsValue(ParseLocation(text, float))
  }

  /**
   * `to_python(value)`: a tuple is returned unchanged, None passes through,
   * and a string is decoded exactly as `from_db_value` decodes a column.
   */
  function ToPython<F>(value: Value<F>, float: string -> Option<F>): (r: Result<Value<F>, LocationError>)
    ensures value.Tuple? ==> r == Ok(value)
    ensures value.Null? ==> r == Ok(Null)
    ensures value.Text? ==> r == FromDbValue(Some(value.text), float)
  {
    match value
    case Tuple(_) => Ok(value)
    case Null => Ok(Null)
    case Text(text) => AsValue(ParseLocation(text, float))
  }

  /** Whatever `to_python` returns, `to_python` returns unchanged. */
  lemma ToPythonIdempotent<F>(value: Value<F>, float: string -> Option<F>)
    requires ToPython(value, float).Ok?
    ensures ToPython(ToPython(value, float).value, float) == ToPython(value, float)
    ensures ToPython(value, float).value.Null? || ToPython(value, float).value.Tuple?
  {
  }

  /**
   * `get_prep_value(value)` as written: None passes through; otherwise the
   * text is `"{},{}".format(value[0], value[1])`. On a tuple that is the two
   * numbers shown with `show`; on a string it is its first two characters,
   * and a value shorter than two raises IndexError.
   */
  function GetPrepValueAsWritten<F>(value: Value<F>, show: F -> string): (r: Result<Option<string>, PrepError>)
    ensures value.Null? <==> r == Ok(None)
    ensures value.Tuple? && |value.items| >= 2 ==>
      r == Ok(Some(show(value.items[0]) + [Separator] + show(value.items[1])))
    ensures value.Text? && |value.text| >= 2 ==>
      r == Ok(Some([value.text[0], Separator, value.text[1]]))
    ensures r.Err? <==> (value.Tuple? && |value.items| < 2) || (value.Text? && |value.text| < 2)
  {
    match value
    case Null => Ok(None)
    case Tuple(items) =>
      if |items| < 2 then Err(IndexOutOfRange)
      else Ok(Some(show(items[0]) + [Separator] + show(items[1])))
    case Text(text) =>
      if |text| < 2 then Err(IndexOutOfRange)
      else Ok(Some([text[0], Separator, text[1]]))
  }

  /**
   * Saving the string "1.5,2.5" as written stores "1,." (its first two
   * characters around a separator), which no longer decodes, although
   * `to_python` accepts the string itself.
   */
  lemma PrepTextAsWrittenLosesLocation<F>(float: string -> Option<F>, show: F -> string)
    requires float("1.5").Some? && float("2.5").Some? && float("1").Some? && float(".").None?
    ensures GetPrepValueAsWritten(Text("1.5,2.5"), show) == Ok(Some("1,."))
    ensures ToPython(Text("1.5,2.5"), float).Ok?
    ensures FromDbValue(Some("1,."), float) == Err(BadLongitude)
  {
    assert Separator !in "1.5" && Separator !in "2.5";
    assert "1.5,2.5" == "1.5" + [Separator] + "2.5";
    SplitAtOnly("1.5", "2.5", Separator);
    TruncatedTextFails(float);
  }

  /** The text "1,." decodes to the longitude error when "1" converts and "." does not. */
  lemma TruncatedTextFails<F>(float: string -> Option<F>)
    requires float("1").Some? && float(".").None?
    ensures FromDbValue(Some("1,."), float) == Err(BadLongitude)
  {
    assert "1,." == "1" + [Separator] + ".";
    SplitAtOnly("1", ".", Separator);
  }

  /**
   * `get_prep_value(value)` with strings taken as already encoded: None
   * passes through, a string is stored verbatim, and a tuple is stored as
   * `"{},{}".format(value[0], value[1])`.
   */
  function GetPrepValue<F>(value: Value<F>, show: F -> string): (r: Result<Option<string>, PrepError>)
    ensures value.Null? <==> r == Ok(None)
    ensures value.Text? ==> r == Ok(Some(value.text))
    ensures value.Tuple? ==> r == GetPrepValueAsWritten(value, show)
  {
    match value
    case Null => Ok(None)
    case Text(text) => Ok(Some(text))
    case Tuple(items) =>
      if |items| < 2 then Err(IndexOutOfRange)
      else Ok(Some(show(items[0]) + [Separator] + show(items[1])))
  }

  /** With the correction, a stored string loads back as `to_python` reads the string itself. */
  lemma PrepTextRoundTrip<F>(text: string, float: string -> Option<F>, show: F -> string)
    ensures GetPrepValue(Text(text), show).Ok?
    ensures FromDbValue(GetPrepValue(Text(text), show).value, float) == ToPython(Text(text), float)
  {
  }

  /**
   * `value_to_string(obj)`: the text `get_prep_value`, as written, makes of
   * the field's attribute `attname` on the model instance `obj`. None gives
   * None, a tuple its first two numbers around the separator, a string its
   * first two characters around the separator.
   */
  function ValueToString<F>(obj: map<string, Value<F>>, attname: string, show: F -> string): (r: Result<Option<string>, PrepError>)
    requires attname in obj
    ensures obj[attname].Null? <==> r == Ok(None)
    ensures obj[attname].Tuple? && |obj[attname].items| >= 2 ==>
      r == Ok(Some(show(obj[attname].items[0]) + [Separator] + show(obj[attname].items[1])))
    ensures obj[attname].Text? && |obj[attname].text| >= 2 ==>
      r == Ok(Some([obj[attname].text[0], Separator, obj[attname].text[1]]))
    ensures r.Err? <==>
      (obj[attname].Tuple? && |obj[attname].items| < 2) || (obj[attname].Text? && |obj[attname].text| < 2)
  {
    GetPrepValueAsWritten(obj[attname], show)
  }

  /** `show` writes `x` without a separator and `float` reads it back as `x`. */
  ghost predicate ShownFaithfully<F>(x: F, float: string -> Option<F>, show: F -> string)
  {
    Separator !in show(x) && float(show(x)) == Some(x)
  }

  /**
   * Formatting a pair and parsing the text gives the pair back, provided
   * each number is shown without a separator and reads back as itself.
   */
  lemma FormatParseRoundTrip<F>(lat: F, lng: F, float: string -> Option<F>, show: F -> string)
    requires ShownFaithfully(lat, float, show) && ShownFaithfully(lng, float, show)
    ensures ParseLocation(show(lat) + [Separator] + show(lng), float) == Ok((lat, lng))
  {
    SplitAtOnly(show(lat), show(lng), Separator);
  }

  /**
   * The text `value_to_string` makes of a pair attribute reads back, through
   * `to_python`, as that same pair, provided its numbers are shown faithfully.
   */
  lemma ValueToStringRoundTrip<F>(obj: map<string, Value<F>>, attname: string,
                                  float: string -> Option<F>, show: F -> string)
    requires attname in obj && obj[attname].Tuple? && |obj[attname].items| == 2
    requires ShownFaithfully(obj[attname].items[0], float, show)
    requires ShownFaithfully(obj[attname].items[1], float, show)
    ensures ValueToString(obj, attname, show).Ok? && ValueToString(obj, attname, show).value.Some?
    ensures ToPython(Text(ValueToString(obj, attname, show).value.value), float) == Ok(obj[attname])
  {
    var items := obj[attname].items;
    FormatParseRoundTrip(items[0], items[1], float, show);
    assert items == [items[0], items[1]];
  }

  /**
   * Saving a location and loading it again gives it back: None, or a pair
   * whose numbers are shown faithfully.
   */
  lemma SaveLoadRoundTrip<F>(value: Value<F>, float: string -> Option<F>, show: F -> string)
    requires value.Null? ||
      (value.Tuple? && |value.items| == 2 &&
       ShownFaithfully(value.items[0], float, show) && ShownFaithfully(value.items[1], float, show))
    ensures GetPrepValue(value, show).Ok?
    ensures FromDbValue(GetPrepValue(value, show).value, float) == Ok(value)
  {
    if value.Tuple? {
      FormatParseRoundTrip(value.items[0], value.items[1], float, show);
      assert value.items == [value.items[0], value.items[1]];
    }
  }

  /**
   * Loading stored text and saving it again gives back the same text when
   * each segment is the text `show` makes of its own number.
   */
  lemma LoadSaveRoundTrip<F>(text: string, i: int, float: string -> Option<F>, show: F -> string)
    requires SeparatorOnlyAt(text, i)
    requires float(text[..i]).Some? && show(float(text[..i]).value) == text[..i]
    requires float(text[i + 1..]).Some? && show(float(text[i + 1..]).value) == text[i + 1..]
    ensures FromDbValue(Some(text), float).Ok?
    ensures GetPrepValue(FromDbValue(Some(text), float).value, show) == Ok(Some(text))
  {
    SegmentsAt(text, i);
    assert text == text[..i] + [Separator] + text[i + 1..];
  }

  // ---------------------------------------------------------------------
  // LocationField.__init__
  // ---------------------------------------------------------------------

  /** A keyword argument's value: an integer, a dictionary, or anything else by its repr. */
  datatype Arg = Int(n: int) | Dict(entries: map<string, Arg>) | Other(repr: string)

  /** The column width the field always asks for. */
  const MaxLength: int := 63

  /**
   * The keyword handling of `LocationField.__init__`: `max_length` is set to
   * 63 whatever the caller gave, and `map_attrs` is popped out (an empty
   * dictionary when absent). Every other keyword goes on to CharField as given.
   */
  method InitKwargs(kwargs: map<string, Arg>) returns (mapAttrs: Arg, forwarded: map<string, Arg>)
    ensures "max_length" in forwarded && forwarded["max_length"] == Int(MaxLength)
    ensures "map_attrs" !in forwarded
    ensures forall k :: k in kwargs && k != "max_length" && k != "map_attrs" ==>
      k in forwarded && forwarded[k] == kwargs[k]
    ensures forall k :: k in forwarded ==> k in kwargs || k == "max_length"
    ensures mapAttrs == if "map_attrs" in kwargs then kwargs["map_attrs"] else Dict(map[])
  {
    var kw := kwargs;
    kw := kw["max_length" := Int(MaxLength)];
    if "map_attrs" in kw {
      mapAttrs := kw["map_attrs"];
      kw := kw - {"map_attrs"};
    } else {
      mapAttrs := Dict(map[]);
    }
    forwarded := kw;
  }

  /**
   * A constructed location field: its `map_attrs`, and the positional and
   * keyword arguments it hands to `CharField.__init__` (which is not part of
   * this model).
   */
  class LocationField {
    var mapAttrs: Arg
    var charFieldArgs: seq<Arg>
    var charFieldKwargs: map<string, Arg>

    /** `LocationField(*args, **kwargs)`. */
    constructor (args: seq<Arg>, kwargs: map<string, Arg>)
      ensures mapAttrs == if "map_attrs" in kwargs then kwargs["map_attrs"] else Dict(map[])
      ensures charFieldArgs == args
      ensures charFieldKwargs == (kwargs - {"map_attrs"})["max_length" := Int(MaxLength)]
    {
      var attrs, forwarded := InitKwargs(kwargs);
      mapAttrs := attrs;
      charFieldArgs := args;
      charFieldKwargs := forwarded;
    }
  }
}
