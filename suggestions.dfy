/** The normalisation `apply_template_to_file` performs on the AI-suggested
    field values before writing them: drop falsy values, bracket the
    `docOwner` value, and rewrite `effectiveDate` and `reviewDate` to
    midnight with a "Z" suffix (or to a fixed sentinel when they do not
    parse). This module gives each step as a specification function with
    its properties; `MetadataUpsert.ApplyTemplateToFile` performs them. */
module Suggestions {
  import opened Wrappers
  import opened OrderedDict
  import opened IsoDateTime

  /** A suggested value: a string, or `None` when the model gave none. */
  datatype PyValue = PyNone | PyStr(text: string)

  /** Python truthiness of a suggested value: `None` and the empty string
      are falsy. */
  predicate TruthyValue(v: PyValue) {
    v.PyStr? && v.text != ""
  }

  /** `datetime.fromisoformat`: `None` stands for the `ValueError` it raises
      on text that is not an ISO-8601 timestamp. */
  type Parser = string -> Option<DateTime>

  const OwnerKey: string := "docOwner"
  const EffectiveDateKey: string := "effectiveDate"
  const ReviewDateKey: string := "reviewDate"

  /** What an unparseable date is replaced with. */
  const SentinelDate: string := "1900-01-01T00:00:00Z"

  // ---------------------------------------------------------------------
  // Step 1: `{k: v for k, v in data.items() if v}`
  // ---------------------------------------------------------------------

  /** The truthy entries of `d`, in their order, as plain strings. */
  function DropFalsy(d: Dict<PyValue>): (r: Dict<string>)
    ensures forall i | 0 <= i < |r| :: r[i].1 != ""
  {
    if d == [] then []
    else if TruthyValue(d[0].1) then [(d[0].0, d[0].1.text)] + DropFalsy(d[1..])
    else DropFalsy(d[1..])
  }

  /** The index of the input entry that the `j`th kept entry came from. */
  lemma {:induction false} DropFalsyOrigin(d: Dict<PyValue>, j: nat) returns (m: nat)
    requires j < |DropFalsy(d)|
    ensures m < |d| && d[m].0 == DropFalsy(d)[j].0 && d[m].1 == PyStr(DropFalsy(d)[j].1)
  {
    if TruthyValue(d[0].1) && j == 0 {
      m := 0;
    } else {
      var mm := DropFalsyOrigin(d[1..], if TruthyValue(d[0].1) then j - 1 else j);
      m := mm + 1;
    }
  }

  /** Filtering keeps the input's order: two kept entries come from input
      entries in the same order. */
  lemma {:induction false} DropFalsyKeepsOrder(d: Dict<PyValue>, i: nat, j: nat) returns (m: nat, n: nat)
    requires i < j < |DropFalsy(d)|
    ensures m < n < |d|
    ensures d[m] == (DropFalsy(d)[i].0, PyStr(DropFalsy(d)[i].1))
    ensures d[n] == (DropFalsy(d)[j].0, PyStr(DropFalsy(d)[j].1))
  {
    var tail := d[1..];
    if TruthyValue(d[0].1) && i == 0 {
      var nn := DropFalsyOrigin(tail, j - 1);
      m, n := 0, nn + 1;
    } else {
      var shift := if TruthyValue(d[0].1) then 1 else 0;
      var mm, nn := DropFalsyKeepsOrder(tail, i - shift, j - shift);
      m, n := mm + 1, nn + 1;
    }
  }

  /** Filtering keeps distinct keys; afterwards a key is present exactly
      when its value was truthy, with that same value: no falsy value
      remains, every truthy one is kept, and no key is new. */
  lemma {:induction false} DropFalsyLookup(d: Dict<PyValue>, k: string)
    requires KeysDistinct(d)
    ensures KeysDistinct(DropFalsy(d))
    ensures Lookup(DropFalsy(d), k) ==
              match Lookup(d, k)
              case Some(v) => if TruthyValue(v) then Some(v.text) else None
              case None => None
  {
    if d != [] {
      var tail := d[1..];
      assert KeysDistinct(tail) by {
        forall i, j | 0 <= i < j < |tail| ensures tail[i].0 != tail[j].0 {
          assert tail[i] == d[i + 1] && tail[j] == d[j + 1];
        }
      }
      DropFalsyLookup(tail, k);
      var rest := DropFalsy(tail);
      if TruthyValue(d[0].1) {
        forall j | 0 <= j < |rest| ensures rest[j].0 != d[0].0 {
          var m := DropFalsyOrigin(tail, j);
          assert tail[m] == d[m + 1];
        }
      }
      if d[0].0 != k {
        assert Lookup(d, k) == Lookup(tail, k);
      } else if !TruthyValue(d[0].1) {
        forall m | 0 <= m < |tail| ensures tail[m].0 != k {
          assert tail[m] == d[m + 1];
        }
      }
    }
  }

  // ---------------------------------------------------------------------
  // Step 2: bracket the owner list
  // ---------------------------------------------------------------------

  /** The `docOwner` rewrite: prefix "[ " unless the value starts with '[',
      then suffix " ]" unless it ends with ']'. Filtering leaves only
      non-empty values, so the first and last characters exist. */
  function BracketOwner(owner: string): (r: string)
    requires owner != ""
    ensures |r| >= |owner| && r[0] == '[' && r[|r| - 1] == ']'
    ensures owner[0] == '[' && owner[|owner| - 1] == ']' ==> r == owner
    ensures r == (if owner[0] == '[' then "" else "[ ") + owner + (if owner[|owner| - 1] == ']' then "" else " ]")
  {
    var prefixed := if owner[0] != '[' then "[ " + owner else owner;
    assert prefixed[|prefixed| - 1] == owner[|owner| - 1];
    if prefixed[|prefixed| - 1] != ']' then prefixed + " ]" else prefixed
  }

  /** Bracketing twice is bracketing once. */
  lemma BracketOwnerIdempotent(owner: string)
    requires owner != ""
    ensures BracketOwner(BracketOwner(owner)) == BracketOwner(owner)
  {
  }

  /** A bare name becomes a one-element list: "Aaron" is "[ Aaron ]", and
      "[ Aaron ]" stays as it is. */
  lemma BracketOwnerExamples()
    ensures BracketOwner("Aaron") == "[ Aaron ]"
    ensures BracketOwner("[ Aaron ]") == "[ Aaron ]"
  {
  }

  // ---------------------------------------------------------------------
  // Step 3: normalise a date
  // ---------------------------------------------------------------------

  /** The date rewrite: parse, zero hour, minute and second, format with
      `isoformat`, remove every "+00:00" and append "Z"; a value that does
      not parse becomes the sentinel. */
  function NormaliseDate(fromIsoFormat: Parser, text: string): (r: string)
    ensures fromIsoFormat(text).None? ==> r == SentinelDate
    ensures r != "" && r[|r| - 1] == 'Z'
  {
    match fromIsoFormat(text)
    case None => SentinelDate
    case Some(dt) => RemoveAll(IsoFormat(Midnight(dt)), UtcSuffix) + "Z"
  }

  /** The time of day `isoformat` writes for a midnight: "00:00:00" and the
      microseconds, which `replace` did not clear. */
  lemma MidnightTimeText(dt: DateTime)
    ensures TimeText(Midnight(dt)) == "00:00:00" + FractionText(dt.microsecond)
  {
    Pad2(0);
  }

  /** What is left of an optional offset after the "+00:00" removal. */
  function OffsetLeft(offset: Option<int>): string {
    if offset.None? then "" else OffsetAfterUtcRemoval(offset.value)
  }

  /** Regrouping of the midnight text, kept apart so that the solver sees
      the concatenation without the functions that produce its parts. */
  lemma Regroup(day: string, fraction: string, offset: string)
    ensures day + "T" + ("00:00:00" + fraction) + offset == day + "T00:00:00" + fraction + offset
  {
    assert "T" + "00:00:00" == "T00:00:00";
  }

  /** `isoformat` of the midnight, with "+00:00" removed: the day,
      "T00:00:00", the microseconds and what is left of the offset. */
  lemma MidnightWithoutUtc(dt: DateTime)
    requires Valid(dt)
    ensures RemoveAll(IsoFormat(Midnight(dt)), UtcSuffix) ==
              DateText(dt) + "T00:00:00" + FractionText(dt.microsecond) + OffsetLeft(dt.offset)
  {
    var midnight := Midnight(dt);
    IsoFormatWithoutUtc(midnight);
    MidnightTimeText(dt);
    assert DateText(midnight) == DateText(dt);
    assert OffsetLeft(midnight.offset) == OffsetLeft(dt.offset);
    Regroup(DateText(dt), FractionText(dt.microsecond), OffsetLeft(dt.offset));
  }

  /** A parsed date becomes its calendar day at "T00:00:00", its
      microseconds if any, what is left of its offset once "+00:00" is
      removed, and "Z". */
  lemma NormaliseParsedDate(fromIsoFormat: Parser, text: string, dt: DateTime)
    requires fromIsoFormat(text) == Some(dt) && Valid(dt)
    ensures NormaliseDate(fromIsoFormat, text) ==
              DateText(dt) + "T00:00:00" + FractionText(dt.microsecond) + OffsetLeft(dt.offset) + "Z"
  {
    assert NormaliseDate(fromIsoFormat, text) == RemoveAll(IsoFormat(Midnight(dt)), UtcSuffix) + "Z";
    MidnightWithoutUtc(dt);
  }

  /** A naive or UTC timestamp becomes midnight of its day with "Z" in
      place of the offset. */
  lemma UtcDateBecomesMidnightZ(fromIsoFormat: Parser, text: string, dt: DateTime)
    requires fromIsoFormat(text) == Some(dt) && Valid(dt)
    requires dt.offset == None || dt.offset == Some(0)
    ensures NormaliseDate(fromIsoFormat, text) == DateText(dt) + "T00:00:00" + FractionText(dt.microsecond) + "Z"
  {
    NormaliseParsedDate(fromIsoFormat, text, dt);
    assert OffsetLeft(dt.offset) == "";
  }

  /** An offset of a minute or more in either direction survives in full,
      and "Z" is appended after it. */
  lemma OtherOffsetSurvives(fromIsoFormat: Parser, text: string, dt: DateTime)
    requires fromIsoFormat(text) == Some(dt) && Valid(dt)
    requires dt.offset.Some? && Magnitude(dt.offset.value) >= MicrosPerMinute
    ensures NormaliseDate(fromIsoFormat, text) ==
              DateText(dt) + "T00:00:00" + FractionText(dt.microsecond) + OffsetText(dt.offset.value) + "Z"
  {
    NormaliseParsedDate(fromIsoFormat, text, dt);
  }

  /** "2024-03-05T10:30:00+00:00" becomes "2024-03-05T00:00:00Z". */
  lemma UtcDateExample(fromIsoFormat: Parser, text: string, dt: DateTime)
    requires text == "2024-03-05T10:30:00+00:00"
    requires dt == DateTime(2024, 3, 5, 10, 30, 0, 0, Some(0))
    requires fromIsoFormat(text) == Some(dt)
    ensures NormaliseDate(fromIsoFormat, text) == "2024-03-05T00:00:00Z"
  {
    UtcDateBecomesMidnightZ(fromIsoFormat, text, dt);
    DateTextExample(dt);
    assert FractionText(dt.microsecond) == "";
  }

  /** "2024-03-05T10:30:00+02:00" becomes "2024-03-05T00:00:00+02:00Z": the
      offset is kept and "Z" follows it. */
  lemma EastOffsetDateExample(fromIsoFormat: Parser, text: string, dt: DateTime)
    requires text == "2024-03-05T10:30:00+02:00"
    requires dt == DateTime(2024, 3, 5, 10, 30, 0, 0, Some(7200000000))
    requires fromIsoFormat(text) == Some(dt)
    ensures NormaliseDate(fromIsoFormat, text) == "2024-03-05T00:00:00+02:00Z"
  {
    OtherOffsetSurvives(fromIsoFormat, text, dt);
    DateTextExample(dt);
    assert FractionText(dt.microsecond) == "";
    TwoHoursOffsetText(dt.offset.value);
  }

  // ---------------------------------------------------------------------
  // All steps together
  // ---------------------------------------------------------------------

  /** The value a kept field ends with after normalisation. */
  function NormaliseField(fromIsoFormat: Parser, key: string, text: string): string
    requires text != ""
  {
    if key == OwnerKey then BracketOwner(text)
    else if key == EffectiveDateKey || key == ReviewDateKey then NormaliseDate(fromIsoFormat, text)
    else text
  }

  /** `data[key] = rewrite(data[key])` when `key in data`. */
  function Rewrite(d: Dict<string>, key: string, rewrite: string --> string): (r: Dict<string>)
    requires forall i | 0 <= i < |d| :: rewrite.requires(d[i].1)
    ensures Keys(r) == Keys(d)
    ensures !Contains(d, key) ==> r == d
    ensures Contains(d, key) ==>
              forall i | 0 <= i < |r| :: r[i] == d[i] || r[i] == (key, rewrite(Lookup(d, key).value))
  {
    match Lookup(d, key)
    case None => d
    case Some(v) => Put(d, key, rewrite(v))
  }

  /** A rewrite whose result for the present value is not empty leaves no
      empty value behind. */
  lemma RewriteKeepsValuesNonEmpty(d: Dict<string>, key: string, rewrite: string --> string)
    requires forall i | 0 <= i < |d| :: rewrite.requires(d[i].1) && d[i].1 != ""
    requires Contains(d, key) ==> rewrite(Lookup(d, key).value) != ""
    ensures forall i | 0 <= i < |Rewrite(d, key, rewrite)| :: Rewrite(d, key, rewrite)[i].1 != ""
  {
  }

  /** The value map `apply_template_to_file` writes: the truthy suggestions,
      in their order, after the owner and the two date rewrites. */
  function Normalise(fromIsoFormat: Parser, data: Dict<PyValue>): (r: Dict<string>)
    ensures Keys(r) == Keys(DropFalsy(data))
    ensures forall i | 0 <= i < |r| :: r[i].1 != ""
  {
    var normaliseDate := text => NormaliseDate(fromIsoFormat, text);
    var kept := DropFalsy(data);
    RewriteKeepsValuesNonEmpty(kept, OwnerKey, BracketOwner);
    var owned := Rewrite(kept, OwnerKey, BracketOwner);
    RewriteKeepsValuesNonEmpty(owned, EffectiveDateKey, normaliseDate);
    var effective := Rewrite(owned, EffectiveDateKey, normaliseDate);
    RewriteKeepsValuesNonEmpty(effective, ReviewDateKey, normaliseDate);
    Rewrite(effective, ReviewDateKey, normaliseDate)
  }

  /** A rewrite changes only the value of `key`, in place. */
  lemma RewriteLookup(d: Dict<string>, key: string, rewrite: string --> string, k: string)
    requires KeysDistinct(d)
    requires forall i | 0 <= i < |d| :: rewrite.requires(d[i].1)
    ensures KeysDistinct(Rewrite(d, key, rewrite))
    ensures Keys(Rewrite(d, key, rewrite)) == Keys(d)
    ensures Lookup(Rewrite(d, key, rewrite), k) ==
              if k == key && Lookup(d, k).Some? then Some(rewrite(Lookup(d, k).value)) else Lookup(d, k)
  {
    if Lookup(d, key).Some? {
      PutLookup(d, key, rewrite(Lookup(d, key).value));
    }
  }

  /** Normalisation keeps the order of the truthy suggestions and adds no
      key: a key ends up present exactly when its suggested value was
      truthy, and then holds that value after its field's rewrite
      (`NormaliseField`). */
  lemma NormaliseLookup(fromIsoFormat: Parser, data: Dict<PyValue>, k: string)
    requires KeysDistinct(data)
    ensures KeysDistinct(Normalise(fromIsoFormat, data))
    ensures Keys(Normalise(fromIsoFormat, data)) == Keys(DropFalsy(data))
    ensures Lookup(Normalise(fromIsoFormat, data), k) ==
              match Lookup(data, k)
              case Some(v) => if TruthyValue(v) then Some(NormaliseField(fromIsoFormat, k, v.text)) else None
              case None => None
  {
    var normaliseDate := text => NormaliseDate(fromIsoFormat, text);
    var kept := DropFalsy(data);
    var owned := Rewrite(kept, OwnerKey, BracketOwner);
    var effective := Rewrite(owned, EffectiveDateKey, normaliseDate);
    DropFalsyLookup(data, k);
    RewriteLookup(kept, OwnerKey, BracketOwner, k);
    RewriteLookup(owned, EffectiveDateKey, normaliseDate, k);
    RewriteLookup(effective, ReviewDateKey, normaliseDate, k);
  }
}
