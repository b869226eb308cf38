/** The base modes of the diary: the `BaseModes` table, resolving a motion
 *  type or base-mode key to its entry, and resolving a trip's `MODE` label
 *  through the deployment's label options. */
module DiaryModes {
  import opened Common

  /** `{ name, icon, color }`. */
  datatype BaseMode = BaseMode(name: string, icon: string, color: string)

  // modeColors
  const Pink := "#c32e85"
  const Red := "#c21725"
  const Orange := "#bf5900"
  const Green := "#008148"
  const Blue := "#0074b7"
  const Periwinkle := "#6356bf"
  const Magenta := "#9240a4"
  const Grey := "#555555"
  const Taupe := "#7d585a"

  /** The modes, keyed by their names: the motion types first, then the modes
   *  a user can label. */
  const BaseModes: map<string, BaseMode> := map[
    "IN_VEHICLE" := BaseMode("IN_VEHICLE", "speedometer", Red),
    "BICYCLING" := BaseMode("BICYCLING", "bike", Green),
    "ON_FOOT" := BaseMode("ON_FOOT", "walk", Blue),
    "UNKNOWN" := BaseMode("UNKNOWN", "help", Grey),
    "WALKING" := BaseMode("WALKING", "walk", Blue),
    "AIR_OR_HSR" := BaseMode("AIR_OR_HSR", "airplane", Orange),
    "CAR" := BaseMode("CAR", "car", Red),
    "E_CAR" := BaseMode("E_CAR", "car-electric", Pink),
    "E_BIKE" := BaseMode("E_BIKE", "bicycle-electric", Green),
    "E_SCOOTER" := BaseMode("E_SCOOTER", "scooter-electric", Periwinkle),
    "MOPED" := BaseMode("MOPED", "moped", Green),
    "TAXI" := BaseMode("TAXI", "taxi", Red),
    "BUS" := BaseMode("BUS", "bus-side", Magenta),
    "AIR" := BaseMode("AIR", "airplane", Orange),
    "LIGHT_RAIL" := BaseMode("LIGHT_RAIL", "train-car-passenger", Periwinkle),
    "TRAIN" := BaseMode("TRAIN", "train-car-passenger", Periwinkle),
    "TRAM" := BaseMode("TRAM", "fas fa-tram", Periwinkle),
    "SUBWAY" := BaseMode("SUBWAY", "subway-variant", Periwinkle),
    "FERRY" := BaseMode("FERRY", "ferry", Taupe),
    "TROLLEYBUS" := BaseMode("TROLLEYBUS", "bus-side", Taupe),
    "UNPROCESSED" := BaseMode("UNPROCESSED", "help", Grey),
    "OTHER" := BaseMode("OTHER", "pencil-circle", Taupe)
  ]

  /** `s.split('.').pop()`: the text after the last `.`, or all of `s`. */
  function LastSegment(s: string): (r: string)
    ensures |r| <= |s| && r == s[|s| - |r|..]
    ensures '.' !in r
    ensures |r| < |s| ==> s[|s| - |r| - 1] == '.'
    decreases |s|
  {
    if s == [] then []
    else if s[|s| - 1] == '.' then []
    else
      var init, c := s[..|s| - 1], s[|s| - 1];
      var p := LastSegment(init);
      assert s == init + [c];
      assert s[|s| - |p| - 1..] == init[|init| - |p|..] + [c];
      assert |p| < |init| ==> s[|s| - |p| - 2] == init[|init| - |p| - 1];
      p + [c]
  }

  /** `getBaseModeByKey`: the entry of the upper-cased key's last `.`-segment,
   *  or `UNKNOWN` when the table has none. */
  function GetBaseModeByKey(motionName: string): (r: BaseMode)
    ensures r in BaseModes.Values
  {
    var key := LastSegment(ToUpper(motionName));
    if key in BaseModes then BaseModes[key] else BaseModes["UNKNOWN"]
  }

  lemma TableNamesAreKeys()
    ensures forall k :: k in BaseModes ==> BaseModes[k].name == k
  {
  }

  /** A key takes the entry named by its last segment, and `UNKNOWN` exactly
   *  when the table has no such entry. */
  lemma {:induction false} BaseModeByKeyIsTableEntry(motionName: string)
    ensures var key := LastSegment(ToUpper(motionName));
      && (key in BaseModes ==> GetBaseModeByKey(motionName) == BaseModes[key] && GetBaseModeByKey(motionName).name == key)
      && (key !in BaseModes ==> GetBaseModeByKey(motionName).name == "UNKNOWN")
  {
    TableNamesAreKeys();
  }

  /** The segment after a `.` is the segment of what follows it. */
  lemma {:induction false} LastSegmentAfterDot(a: string, b: string)
    ensures LastSegment(a + "." + b) == LastSegment(b)
    decreases |b|
  {
    if b == [] {
      assert (a + "." + b)[..|a + "." + b| - 1] == a;
    } else {
      var s := a + "." + b;
      assert s[..|s| - 1] == a + "." + b[..|b| - 1];
      LastSegmentAfterDot(a, b[..|b| - 1]);
    }
  }

  /** A text without `.` is its own last segment. */
  lemma {:induction false} LastSegmentOfUndotted(s: string)
    requires '.' !in s
    ensures LastSegment(s) == s
  {
  }

  /** The lookup ignores case. */
  lemma {:induction false} BaseModeByKeyIgnoresCase(motionName: string)
    ensures GetBaseModeByKey(ToLower(motionName)) == GetBaseModeByKey(motionName)
  {
    ToUpperOfToLower(motionName);
  }

  /** `MotionTypes.<key>` resolves as `<key>` does. */
  lemma {:induction false} BaseModeByKeyIgnoresMotionTypesPrefix(key: string)
    ensures GetBaseModeByKey("MotionTypes." + key) == GetBaseModeByKey(key)
  {
    ToUpperConcat("MotionTypes.", key);
    var p := ToUpper("MotionTypes");
    ToUpperConcat("MotionTypes", ".");
    assert "MotionTypes." == "MotionTypes" + ".";
    assert ToUpper(".") == ".";
    assert ToUpper("MotionTypes." + key) == p + "." + ToUpper(key);
    LastSegmentAfterDot(p, ToUpper(key));
    var u := ToUpper(key);
  }

  /** Text of capitals and `_` only: no lower-case letters and no `.`. */
  predicate CapitalUndotted(s: string)
  {
    forall c :: c in s ==> 'A' <= c <= 'Z' || c == '_'
  }

  lemma {:induction false} CapitalUndottedIsOwnKey(s: string)
    requires CapitalUndotted(s)
    ensures ToUpper(s) == s && LastSegment(ToUpper(s)) == s
  {
    forall i | 0 <= i < |s|
      ensures ToUpper(s)[i] == s[i]
    {
      assert s[i] in s;
    }
    LastSegmentOfUndotted(s);
  }

  lemma MotionTypeKeysAreCapitalUndotted(k: string)
    requires k in {"IN_VEHICLE", "BICYCLING", "ON_FOOT", "UNKNOWN", "WALKING", "AIR_OR_HSR"}
    ensures CapitalUndotted(k)
  {
  }

  lemma VehicleKeysAreCapitalUndotted(k: string)
    requires k in {"CAR", "E_CAR", "E_BIKE", "E_SCOOTER", "MOPED", "TAXI", "BUS", "AIR"}
    ensures CapitalUndotted(k)
  {
  }

  lemma TransitKeysAreCapitalUndotted(k: string)
    requires k in {"LIGHT_RAIL", "TRAIN", "TRAM", "SUBWAY", "FERRY", "TROLLEYBUS", "UNPROCESSED", "OTHER"}
    ensures CapitalUndotted(k)
  {
  }

  /** Each key of the table is in capitals and without a `.`. */
  lemma TableKeysAreCapitalUndotted()
    ensures forall k :: k in BaseModes ==> CapitalUndotted(k)
  {
    forall k | k in BaseModes
      ensures CapitalUndotted(k)
    {
      if k in {"IN_VEHICLE", "BICYCLING", "ON_FOOT", "UNKNOWN", "WALKING", "AIR_OR_HSR"} {
        MotionTypeKeysAreCapitalUndotted(k);
      } else if k in {"CAR", "E_CAR", "E_BIKE", "E_SCOOTER", "MOPED", "TAXI", "BUS", "AIR"} {
        VehicleKeysAreCapitalUndotted(k);
      } else {
        TransitKeysAreCapitalUndotted(k);
      }
    }
  }

  /** Every entry is found under its own key, in capitals, in lower case or
   *  with the `MotionTypes.` prefix. */
  lemma {:induction false} TableKeysResolveToTheirEntries(k: string)
    requires k in BaseModes
    ensures GetBaseModeByKey(k) == BaseModes[k]
    ensures GetBaseModeByKey(ToLower(k)) == BaseModes[k]
    ensures GetBaseModeByKey("MotionTypes." + k) == BaseModes[k]
  {
    TableKeysAreCapitalUndotted();
    CapitalUndottedIsOwnKey(k);
    BaseModeByKeyIgnoresCase(k);
    BaseModeByKeyIgnoresMotionTypesPrefix(k);
  }

  /** A capital key the table lacks shows as `UNKNOWN`, with or without the
   *  `MotionTypes.` prefix. */
  lemma {:induction false} AbsentKeyIsUnknown(m: string)
    requires CapitalUndotted(m) && m !in BaseModes
    ensures GetBaseModeByKey(m) == BaseModes["UNKNOWN"]
    ensures GetBaseModeByKey("MotionTypes." + m) == BaseModes["UNKNOWN"]
  {
    CapitalUndottedIsOwnKey(m);
    BaseModeByKeyIgnoresMotionTypesPrefix(m);
  }

  /** The motion types of `MotionTypeKey` that have no entry of their own. */
  const MissingMotionTypes: seq<string> := ["STILL", "TILTING", "RUNNING", "NONE", "STOPPED_WHILE_IN_VEHICLE"]

  lemma MissingMotionTypesAreCapitalUndotted()
    ensures forall m :: m in MissingMotionTypes ==> CapitalUndotted(m)
  {
  }

  lemma MissingMotionTypesAreNotKeys()
    ensures forall m :: m in MissingMotionTypes ==> m !in BaseModes
  {
  }

  /** The motion types the table lacks show as `UNKNOWN`. */
  lemma {:induction false} MissingMotionTypesAreUnknown(m: string)
    requires m in MissingMotionTypes
    ensures GetBaseModeByKey(m) == BaseModes["UNKNOWN"]
    ensures GetBaseModeByKey("MotionTypes." + m) == BaseModes["UNKNOWN"]
  {
    MissingMotionTypesAreCapitalUndotted();
    MissingMotionTypesAreNotKeys();
    AbsentKeyIsUnknown(m);
  }

  /** One of the deployment's `MODE` label options. */
  datatype LabelOption = LabelOption(value: string, text: string, baseMode: Option<string>)

  /** Which property of an option a lookup matches on. */
  datatype OptionField = ByValue | ByText

  function FieldOf(o: LabelOption, f: OptionField): string
  {
    if f == ByValue then o.value else o.text
  }

  /** `labelOptions?.MODE?.find((opt) => opt.<field> == x)`: the first option
   *  whose field equals `x`; nothing when the options are absent. */
  function FindOption(modeOptions: Option<seq<LabelOption>>, f: OptionField, x: string): (r: Option<LabelOption>)
    ensures r.None? <==> modeOptions.None? || forall i :: 0 <= i < |modeOptions.value| ==> FieldOf(modeOptions.value[i], f) != x
    ensures r.Some? ==>
      exists i :: 0 <= i < |modeOptions.value| && modeOptions.value[i] == r.value &&
        FieldOf(r.value, f) == x && forall j :: 0 <= j < i ==> FieldOf(modeOptions.value[j], f) != x
  {
    if modeOptions.None? then None else FindIn(modeOptions.value, f, x)
  }

  function FindIn(opts: seq<LabelOption>, f: OptionField, x: string): (r: Option<LabelOption>)
    ensures r.None? <==> forall i :: 0 <= i < |opts| ==> FieldOf(opts[i], f) != x
    ensures r.Some? ==>
      exists i :: 0 <= i < |opts| && opts[i] == r.value &&
        FieldOf(r.value, f) == x && forall j :: 0 <= j < i ==> FieldOf(opts[j], f) != x
  {
    if opts == [] then None
    else if FieldOf(opts[0], f) == x then Some(opts[0])
    else
      var r := FindIn(opts[1..], f, x);
      if r.Some? then
        ghost var i :| 0 <= i < |opts[1..]| && opts[1..][i] == r.value && FieldOf(r.value, f) == x &&
          forall j :: 0 <= j < i ==> FieldOf(opts[1..][j], f) != x;
        assert opts[i + 1] == r.value;
        r
      else r
  }

  /** `modeOption?.baseMode || 'OTHER'`. */
  function BaseModeKeyOf(option: Option<LabelOption>): (k: string)
    ensures k != ""
  {
    if option.Some? && option.value.baseMode.Some? && option.value.baseMode.value != "" then option.value.baseMode.value
    else "OTHER"
  }

  /** `getBaseModeByValue`. */
  function GetBaseModeByValue(value: string, modeOptions: Option<seq<LabelOption>>): (r: BaseMode)
    ensures r in BaseModes.Values
  {
    GetBaseModeByKey(BaseModeKeyOf(FindOption(modeOptions, ByValue, value)))
  }

  /** `getBaseModeByText`. */
  function GetBaseModeByText(text: string, modeOptions: Option<seq<LabelOption>>): (r: BaseMode)
    ensures r in BaseModes.Values
  {
    GetBaseModeByKey(BaseModeKeyOf(FindOption(modeOptions, ByText, text)))
  }

  /** `getBaseModeOfLabeledTrip`, given the trip's `MODE` label value:
   *  nothing (`null`) for a trip without a mode label. */
  function GetBaseModeOfLabeledTrip(modeLabel: Option<string>, modeOptions: Option<seq<LabelOption>>): (r: Option<BaseMode>)
    ensures r.None? <==> modeLabel.None? || modeLabel.value == ""
    ensures r.Some? ==> r.value in BaseModes.Values
  {
    if modeLabel.None? || modeLabel.value == "" then None
    else Some(GetBaseModeByKey(BaseModeKeyOf(FindOption(modeOptions, ByValue, modeLabel.value))))
  }

  /** A labelled trip takes the base mode its label's value gives. */
  lemma LabeledTripUsesValueLookup(modeLabel: string, modeOptions: Option<seq<LabelOption>>)
    requires modeLabel != ""
    ensures GetBaseModeOfLabeledTrip(Some(modeLabel), modeOptions) == Some(GetBaseModeByValue(modeLabel, modeOptions))
  {
  }

  /** With no matching option the lookups give `OTHER`. */
  lemma {:induction false} NoMatchingOptionGivesOther(x: string, f: OptionField, modeOptions: Option<seq<LabelOption>>)
    requires modeOptions.None? || forall i :: 0 <= i < |modeOptions.value| ==> FieldOf(modeOptions.value[i], f) != x
    ensures GetBaseModeByKey(BaseModeKeyOf(FindOption(modeOptions, f, x))) == BaseModes["OTHER"]
    ensures f == ByValue ==> GetBaseModeByValue(x, modeOptions) == BaseModes["OTHER"]
    ensures f == ByText ==> GetBaseModeByText(x, modeOptions) == BaseModes["OTHER"]
  {
    TableKeysResolveToTheirEntries("OTHER");
  }

  /** The first matching option decides, through its base mode, or `OTHER`
   *  when it has none. */
  lemma {:induction false} FirstMatchingOptionDecides(x: string, f: OptionField, opts: seq<LabelOption>, i: nat)
    requires i < |opts| && FieldOf(opts[i], f) == x
    requires forall j :: 0 <= j < i ==> FieldOf(opts[j], f) != x
    ensures var r := GetBaseModeByKey(BaseModeKeyOf(FindOption(Some(opts), f, x)));
      && (opts[i].baseMode.Some? && opts[i].baseMode.value != "" ==> r == GetBaseModeByKey(opts[i].baseMode.value))
      && (opts[i].baseMode.None? || opts[i].baseMode.value == "" ==> r == BaseModes["OTHER"])
  {
    var r := FindOption(Some(opts), f, x);
    var k :| 0 <= k < |opts| && opts[k] == r.value && FieldOf(r.value, f) == x &&
      forall j :: 0 <= j < k ==> FieldOf(opts[j], f) != x;
    assert k == i;
    TableKeysResolveToTheirEntries("OTHER");
  }

  /** `filterRunning`: only the dotted running motion type is folded into walking. */
  function FilterRunning(mode: string): (r: string)
    ensures r != mode <==> mode == "MotionTypes.RUNNING"
    ensures r != mode ==> r == "MotionTypes.WALKING"
  {
    if mode == "MotionTypes.RUNNING" then "MotionTypes.WALKING" else mode
  }

  /** Folding is idempotent and changes nothing but the dotted running type. */
  lemma FilterRunningFoldsOnlyDottedRunning(mode: string)
    ensures FilterRunning(FilterRunning(mode)) == FilterRunning(mode)
    ensures FilterRunning(mode) != mode <==> mode == "MotionTypes.RUNNING"
  {
  }

  /** The dotted running type shows as walking. */
  lemma {:induction false} DottedRunningShowsAsWalking(mode: string)
    ensures mode == "MotionTypes.RUNNING" ==> GetBaseModeByKey(FilterRunning(mode)) == BaseModes["WALKING"]
  {
    if mode == "MotionTypes.RUNNING" {
      var w := "WALKING";
      var k := "MotionTypes." + w;
      assert FilterRunning(mode) == k;
      assert GetBaseModeByKey(k) == BaseModes[w] by {
        TableKeysResolveToTheirEntries(w);
      }
    }
  }

  /** Plain `RUNNING` is not folded and shows as `UNKNOWN`. */
  lemma {:induction false} PlainRunningShowsAsUnknown(mode: string)
    ensures mode == "RUNNING" ==> GetBaseModeByKey(FilterRunning(mode)) == BaseModes["UNKNOWN"]
  {
    if mode == "RUNNING" {
      assert CapitalUndotted(mode) && mode !in BaseModes;
      AbsentKeyIsUnknown(mode);
    }
  }
}
