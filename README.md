# Location field codec

A model of the coordinate codec behind the Django model field
`LocationField` of django-mapbox-location-field. A location is stored in a
text column as `"lat,lng"`.

- `parse_location` splits the text on the comma. It rejects anything that does
  not split into exactly two segments. It then converts the latitude and the
  longitude with `float()`, each with its own validation error.
- The field's hooks use it. `from_db_value` and `to_python` decode text into a
  `(lat, lng)` tuple, passing None (and, for `to_python`, any tuple) through.
  `get_prep_value` and `value_to_string` encode a pair as `"{lat},{lng}"`.
- The constructor forces `max_length` to 63 and takes `map_attrs` out of the
  keyword arguments.

Two modules:

- `PyStr` (pystr.dfy) holds Python's `str.count`, `str.split` and `str.join`
  on a one-character separator. It proves that `split` gives one more part than
  there are separators, that the parts hold no separator, that joining them gives
  the input back, and that no other non-empty separator-free list of parts does.
- `Models` (models.dfy) holds `parse_location`, the hooks and `__init__`.

Python's `float()` on one segment is the parameter `float: string -> Option<F>`.
`None` stands for the ValueError it raises. `str()` of a number is the parameter
`show: F -> string`. Nothing is assumed about either, except where a lemma
names its assumption. The round-trip lemmas assume that the shown text holds no
comma and that `float` reads it back as the same number. The two lemmas behind
the finding below (`PrepTextAsWrittenLosesLocation`, `TruncatedTextFails`)
assume what `float` returns for "1.5", "2.5", "1" and ".", as Python's
`float()` does: numbers for the first three, ValueError for ".".

The three validation messages are the datatype `LocationError` (`BadCount`,
`BadLatitude`, `BadLongitude`). The Python values the hooks receive are
`Value<F>`: `Null`, `Text(string)` or `Tuple(seq<F>)`.

The code raises three distinct validation messages, and the model keeps them
apart. Whitespace handling belongs to `float()` (Python strips it), so here it is
whatever the `float` parameter does.

## Model

| member | source | states |
|---|---|---|
| `PyStr.Split` | mapbox_location_field/models.py:11 | `split(",")` yields one more part than the text has commas (one empty part for the empty string), no part holds a comma, and joining the parts with commas gives the text back |
| `PyStr.SplitUnique` | mapbox_location_field/models.py:11 | any non-empty list of comma-free parts that joins back to the text is exactly what `split` returns |
| `PyStr.SplitAtOnly` | mapbox_location_field/models.py:11-16 | text made of a comma-free `a`, one comma and a comma-free `b` splits into exactly `[a, b]` |
| `Models.ParseLocation` | mapbox_location_field/models.py:9-27 | the count error is raised exactly when the text does not hold exactly one comma (none, two or more, or the empty string), whatever `float` would say about the segments |
| `Models.OneSeparator` | mapbox_location_field/models.py:11-13 | passing the count check (one comma) is the same as having one position whose character is the only comma |
| `Models.SegmentsAt` | mapbox_location_field/models.py:11-16 | with the only comma at `i`, `args[0]` is the text before it and `args[1]` the text after it |
| `Models.SeparatorAfterFirstSegment` | mapbox_location_field/models.py:11-16 | when the count check passes, the comma sits right after the first segment, and the two segments are the texts on either side of it |
| `Models.LatitudeError` | mapbox_location_field/models.py:18-21 | the latitude error is raised if and only if there is one comma and the text before it does not convert, whatever follows the comma |
| `Models.LongitudeError` | mapbox_location_field/models.py:22-25 | the longitude error is raised if and only if there is one comma, the latitude converts and the longitude does not |
| `Models.ParseSuccess` | mapbox_location_field/models.py:15-27 | the result is `(lat, lng)` if and only if the text is `before + "," + after` with both comma-free, `float(before) == lat` and `float(after) == lng` |
| `Models.FromDbValue` | mapbox_location_field/models.py:46-49 | a NULL column, and only that, gives None; any text gives exactly `parse_location`'s outcome, the pair as a 2-tuple or its error |
| `Models.ToPython` | mapbox_location_field/models.py:51-58 | a tuple comes back unchanged, None gives None, a string is decoded exactly as `from_db_value` decodes it |
| `Models.ToPythonIdempotent` | mapbox_location_field/models.py:51-58 | what `to_python` returns is None or a tuple, and `to_python` of it returns it unchanged |
| `Models.GetPrepValueAsWritten` | mapbox_location_field/models.py:60-64 | None, and only None, gives None; a tuple gives `show(v[0]) + "," + show(v[1])`; a string gives its first two characters around a comma; a value shorter than two raises IndexError, and only such a value does |
| `Models.PrepTextAsWrittenLosesLocation` | mapbox_location_field/models.py:60-64 | as written, the string `"1.5,2.5"` (which `to_python` accepts) is stored as `"1,."`, which loads back as the longitude error |
| `Models.GetPrepValue` | mapbox_location_field/models.py:60-64 | the corrected hook: None gives None, a string is stored as it is, a tuple is stored exactly as the code does it |
| `Models.PrepTextRoundTrip` | mapbox_location_field/models.py:60-64 | with the correction, a string value that is saved and loaded again decodes as `to_python` decodes the string itself |
| `Models.ValueToString` | mapbox_location_field/models.py:72-74 | `value_to_string` of the field's attribute: None gives None, a tuple of two or more gives `show(a) + "," + show(b)`, a string of two or more characters its first two characters around a comma, and anything shorter raises IndexError, exactly as `get_prep_value` is written |
| `Models.ValueToStringRoundTrip` | mapbox_location_field/models.py:72-74 | the text `value_to_string` makes of a pair attribute whose numbers are shown faithfully reads back through `to_python` as that same pair |
| `Models.FormatParseRoundTrip` | mapbox_location_field/models.py:60-64 | `parse_location(show(lat) + "," + show(lng))` is `(lat, lng)` when each number is shown without a comma and reads back as itself |
| `Models.SaveLoadRoundTrip` | mapbox_location_field/models.py:46-64 | `from_db_value(get_prep_value(v)) == v` for None and for every pair whose numbers are shown faithfully |
| `Models.LoadSaveRoundTrip` | mapbox_location_field/models.py:46-64 | stored text that decodes, and whose two segments are the text `show` makes of their own numbers, is stored again as the very same text |
| `Models.InitKwargs` | mapbox_location_field/models.py:35-37 | the keywords passed on hold `max_length = 63` whatever the caller gave, no `map_attrs`, and every other keyword unchanged; `map_attrs` is the caller's or an empty dictionary |
| `Models.LocationField.constructor` | mapbox_location_field/models.py:35-38 | the field keeps `map_attrs` and hands CharField the positional arguments as given and the keywords with `map_attrs` removed and `max_length` set to 63 |

## Findings

| source | as written | input that shows it | evidently intended | confidence | as-written member | corrected member |
|---|---|---|---|---|---|---|
| mapbox_location_field/models.py:60-64 | `get_prep_value` indexes any non-None value, so a string gets its first two characters stored around a comma | the string `"1.5,2.5"` assigned to the field is stored as `"1,."`, which `from_db_value` rejects with the longitude error; `"12"` is stored as `"1,2"` | a value that is already coordinate text is stored as it is, so that it loads back as `to_python` reads it; another plausible correction passes the value through `to_python` first, as Django's own `CharField.get_prep_value` does, which would also reject invalid text such as `"abc"` at save time instead of at every later load | medium, not executed | `Models.PrepTextAsWrittenLosesLocation` | `Models.PrepTextRoundTrip` |

`ValueToString` models `value_to_string` over the hook as written, as the
code calls it. The save/load round trips use the corrected `GetPrepValue`; on
None and on tuples it is exactly the code.

## Left out

- The grammar of Python's `float()` (whitespace, signs, exponents, `inf`, `nan`, underscores), the float values, their `repr` and their precision: these are the parameters `float` and `show`.
- Latitude and longitude ranges (±90, ±180): the code does not check them, so neither does the model.
- The translated message texts: only the three error kinds are kept.
- `deconstruct`: its result depends on what Django's `CharField.deconstruct` returns, which is not part of this model.
- `formfield` on both classes and the whole of `AddressAutoHiddenField`: they only hand keyword arguments to Django's form classes and to the package's forms module, which is not part of this model.
- `CharField.__init__`, `TextField` and the ORM's dispatch to the hooks: the constructor records what it hands to `CharField` and stops there.
- Python values other than None, strings and tuples reaching `to_python` or `get_prep_value`: the model's `Value` type has no room for them. In Python, `to_python` of an integer raises AttributeError (no `split`); `get_prep_value` of an integer raises TypeError (not subscriptable); a list, or a dictionary with keys 0 and 1, is formatted like a tuple. A tuple's elements are all of the number type `F`.
- `from_db_value` receives only what a text column gives (NULL or a string); a tuple handed to it would raise AttributeError, which is not modelled.
- `Models.ValueToString`: `value_from_object` is taken to be the lookup of the field's attribute name on the instance, and the model requires the attribute to exist, as Django guarantees for a model instance.
- The `expression` and `connection` parameters of `from_db_value`, which the code ignores.
