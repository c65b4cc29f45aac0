/** The record model of the dashboard (dashboard/interface.py): the
    measurement `Entry`, the seven table settings with their defaults, the
    coercing settings applier, and the mutable `Table` that one worksheet is
    parsed into. The applier replaces Python's attribute reflection by a
    closed enumeration of the options; each option keeps the type of its
    default, so coercing "to the option's current type" is coercing to a
    fixed type per option. */
module Records {
  import opened Wrappers
  import PySemantics

  /** One measurement. Timestamps are modelled as integers. */
  datatype Entry = Entry(name: string, value: real, timestamp: int)

  /** `Entry(name, value, timestamp)`: a missing timestamp (Python `None`)
      becomes the clock reading `now`. */
  function NewEntry(name: string, value: real, timestamp: Option<int>, now: int): (e: Entry)
    ensures e.name == name && e.value == value
    ensures timestamp.Some? ==> e.timestamp == timestamp.value
    ensures timestamp.None? ==> e.timestamp == now
  {
    Entry(name, value, if timestamp.Some? then timestamp.value else now)
  }

  datatype Settings = Settings(
    hide: bool,
    axis: string,
    name: string,
    priority: int,
    keepTop: int,
    keepLast: int,
    lowerBetter: bool)

  /** The class-level defaults of `TableSettings`. */
  const Defaults := Settings(false, "", "", 10, 5, 5, false)

  /** The options `TableSettings` declares. */
  datatype OptionName = Hide | Axis | Name | Priority | KeepTop | KeepLast | LowerBetter

  /** The attribute lookup `hasattr(settings, a)`, over the seven options. */
  function LookupOption(a: string): (o: Option<OptionName>)
    ensures o.Some? <==> a in {"hide", "axis", "name", "priority", "keep_top", "keep_last", "lower_better"}
  {
    match a
    case "hide" => Some(Hide)
    case "axis" => Some(Axis)
    case "name" => Some(Name)
    case "priority" => Some(Priority)
    case "keep_top" => Some(KeepTop)
    case "keep_last" => Some(KeepLast)
    case "lower_better" => Some(LowerBetter)
    case _ => None
  }

  /** The value of one option; its constructor is the option's Python type. */
  datatype Value = BoolValue(b: bool) | StrValue(s: string) | IntValue(i: int)

  /** `getattr(settings, o)` */
  function Get(st: Settings, o: OptionName): Value {
    match o
    case Hide => BoolValue(st.hide)
    case Axis => StrValue(st.axis)
    case Name => StrValue(st.name)
    case Priority => IntValue(st.priority)
    case KeepTop => IntValue(st.keepTop)
    case KeepLast => IntValue(st.keepLast)
    case LowerBetter => BoolValue(st.lowerBetter)
  }

  predicate SameType(a: Value, b: Value) {
    (a.BoolValue? && b.BoolValue?) || (a.StrValue? && b.StrValue?) || (a.IntValue? && b.IntValue?)
  }

  /** `setattr(settings, o, x)` for a value of the option's type. */
  function Set(st: Settings, o: OptionName, x: Value): (r: Settings)
    requires SameType(Get(st, o), x)
    ensures Get(r, o) == x
    ensures forall p :: p != o ==> Get(r, p) == Get(st, p)
  {
    match o
    case Hide => st.(hide := x.b)
    case Axis => st.(axis := x.s)
    case Name => st.(name := x.s)
    case Priority => st.(priority := x.i)
    case KeepTop => st.(keepTop := x.i)
    case KeepLast => st.(keepLast := x.i)
    case LowerBetter => st.(lowerBetter := x.b)
  }

  /** What a directive hands to `setting`: the Python literal `True` (bare
      `s:x`) or the text after `=`. */
  datatype Raw = RawTrue | RawText(text: string)

  /** `bool(v)`: `True` stays true; a string is true iff it is not empty. */
  function PyBool(v: Raw): bool {
    match v
    case RawTrue => true
    case RawText(s) => s != ""
  }

  /** `str(v)`: `str(True)` is `"True"`; a string is returned as it is. */
  function PyStr(v: Raw): string {
    match v
    case RawTrue => "True"
    case RawText(s) => s
  }

  /** `int(v)`: `int(True)` is 1; a string is parsed, `None` standing for the
      `ValueError` Python raises. */
  function PyInt(v: Raw): Option<int> {
    match v
    case RawTrue => Some(1)
    case RawText(s) => PySemantics.ParseInt(s)
  }

  /** `T(v)` where `T = type(current)`. */
  function Coerce(current: Value, v: Raw): (r: Option<Value>)
    ensures r.Some? ==> SameType(current, r.value)
    ensures r.None? <==> current.IntValue? && PyInt(v).None?
  {
    match current
    case BoolValue(_) => Some(BoolValue(PyBool(v)))
    case StrValue(_) => Some(StrValue(PyStr(v)))
    case IntValue(_) => if PyInt(v).Some? then Some(IntValue(PyInt(v).value)) else None
  }

  /** The exceptions `setting` raises: the `ValueError` of an int option
      given text that is not an integer, and the `TypeError` of a keyword
      named `self`, which collides with the method's own first parameter. */
  datatype SettingError = InvalidInt(option: OptionName, text: string) | SelfKeyword

  /** Some keyword is named `self`. */
  predicate PassesSelf(kwargs: seq<(string, Raw)>) {
    exists i :: 0 <= i < |kwargs| && kwargs[i].0 == "self"
  }

  /** One keyword of `Table.setting`: an unknown name changes nothing
      (Python only logs a warning); a known option receives its raw value
      coerced to the option's type, and the other options keep theirs; a
      failed integer coercion raises, leaving the settings as they were. The
      name `self` raises `TypeError` (it is the only keyword a one-keyword
      call cannot bind). */
  function ApplySetting(st: Settings, a: string, v: Raw): (r: Result<Settings, SettingError>)
    ensures a == "self" ==> r == Failure(SelfKeyword)
    ensures a != "self" && LookupOption(a).None? ==> r == Success(st)
    ensures r.Failure? <==> a == "self" || (LookupOption(a).Some? && Get(st, LookupOption(a).value).IntValue? && PyInt(v).None?)
    ensures r.Failure? && a != "self" ==> r.error == InvalidInt(LookupOption(a).value, PyStr(v))
    ensures r.Success? && LookupOption(a).Some? ==>
              var o := LookupOption(a).value;
              Coerce(Get(st, o), v) == Some(Get(r.value, o)) &&
              forall p :: p != o ==> Get(r.value, p) == Get(st, p)
  {
    if a == "self" then Failure(SelfKeyword)
    else
      match LookupOption(a)
      case None => Success(st)
      case Some(o) =>
        match Coerce(Get(st, o), v)
        case None => Failure(InvalidInt(o, PyStr(v)))
        case Some(x) => Success(Set(st, o, x))
  }

  /** A bool option given `True` or any non-empty text becomes true, and
      false for the empty text. */
  lemma BoolSettingValue(st: Settings, a: string, v: Raw)
    requires LookupOption(a) == Some(Hide) || LookupOption(a) == Some(LowerBetter)
    ensures var r := ApplySetting(st, a, v);
            r.Success? && Get(r.value, LookupOption(a).value) == BoolValue(v.RawTrue? || v.text != "")
  {
    var o := LookupOption(a).value;
    assert Get(st, o).BoolValue?;
  }

  /** A str option receives `"True"` for `True` and the text itself
      otherwise. */
  lemma StrSettingValue(st: Settings, a: string, v: Raw)
    requires LookupOption(a) == Some(Axis) || LookupOption(a) == Some(Name)
    ensures var r := ApplySetting(st, a, v);
            r.Success? && Get(r.value, LookupOption(a).value) == StrValue(if v.RawTrue? then "True" else v.text)
  {
    var o := LookupOption(a).value;
    assert Get(st, o).StrValue?;
  }

  /** An int option receives 1 for `True`; given text it succeeds exactly
      when `int()` accepts the text, and receives its value. */
  lemma IntSettingValue(st: Settings, a: string, v: Raw)
    requires LookupOption(a) == Some(Priority) || LookupOption(a) == Some(KeepTop) || LookupOption(a) == Some(KeepLast)
    ensures var r := ApplySetting(st, a, v);
            && (v.RawTrue? ==> r.Success? && Get(r.value, LookupOption(a).value) == IntValue(1))
            && (v.RawText? ==> (r.Success? <==> PySemantics.ParseInt(v.text).Some?))
            && (v.RawText? && r.Success? ==> Get(r.value, LookupOption(a).value) == IntValue(PySemantics.ParseInt(v.text).value))
  {
    var o := LookupOption(a).value;
    assert Get(st, o).IntValue?;
  }

  /** An int option given the decimal text of a number receives that number
      and the other options keep theirs: `s:keep_top=2` sets `keep_top` to 2. */
  lemma IntSettingFromDigits(st: Settings, a: string, n: nat)
    requires LookupOption(a) == Some(Priority) || LookupOption(a) == Some(KeepTop) || LookupOption(a) == Some(KeepLast)
    ensures var r := ApplySetting(st, a, RawText(PySemantics.NatToString(n)));
            && r.Success? && Get(r.value, LookupOption(a).value) == IntValue(n)
            && forall p :: p != LookupOption(a).value ==> Get(r.value, p) == Get(st, p)
  {
    PySemantics.ParseIntOfNatToString(n);
    IntSettingValue(st, a, RawText(PySemantics.NatToString(n)));
  }

  /** The outcome of `setting` calls made one keyword at a time, stopping at
      the first error: the settings reached, and the error if one was raised
      part-way (the earlier assignments stay in place, as Python's do). A
      single call with several keywords differs only when one of them is
      `self`, which `Table.Setting` rejects before assigning anything. */
  datatype Applied = Applied(settings: Settings, error: Option<SettingError>)

  function ApplySettings(st: Settings, kwargs: seq<(string, Raw)>): Applied
    decreases |kwargs|
  {
    if kwargs == [] then Applied(st, None)
    else
      match ApplySetting(st, kwargs[0].0, kwargs[0].1)
      case Failure(e) => Applied(st, Some(e))
      case Success(st') => ApplySettings(st', kwargs[1..])
  }

  /** A single keyword is one step of the applier. */
  lemma ApplyOne(st: Settings, a: string, v: Raw)
    ensures PassesSelf([(a, v)]) <==> a == "self"
    ensures var r := ApplySetting(st, a, v);
            ApplySettings(st, [(a, v)]) == if r.Failure? then Applied(st, Some(r.error)) else Applied(r.value, None)
  {
    assert [(a, v)][0].0 == a;
    assert [(a, v)][1..] == [];
  }

  /** Options that no directive in `kwargs` names keep their value, so the
      settings a worksheet ends with are the defaults overridden only where a
      directive says so. */
  lemma {:induction false} ApplySettingsKeeps(st: Settings, kwargs: seq<(string, Raw)>, o: OptionName)
    requires forall i :: 0 <= i < |kwargs| ==> LookupOption(kwargs[i].0) != Some(o)
    ensures Get(ApplySettings(st, kwargs).settings, o) == Get(st, o)
    decreases |kwargs|
  {
    if kwargs != [] {
      var r := ApplySetting(st, kwargs[0].0, kwargs[0].1);
      if r.Success? {
        ApplySettingsKeeps(r.value, kwargs[1..], o);
      }
    }
  }

  /** Applying two lists of directives one after the other is applying their
      concatenation one keyword at a time (stopping at the first error), which is why directives
      take effect in row order. */
  lemma {:induction false} ApplySettingsAppend(st: Settings, a: seq<(string, Raw)>, b: seq<(string, Raw)>)
    ensures ApplySettings(st, a + b) ==
              var first := ApplySettings(st, a);
              if first.error.Some? then first else ApplySettings(first.settings, b)
    decreases |a|
  {
    if a == [] {
      assert a + b == b;
    } else {
      assert (a + b)[0] == a[0];
      assert (a + b)[1..] == a[1..] + b;
      var r := ApplySetting(st, a[0].0, a[0].1);
      if r.Success? {
        ApplySettingsAppend(r.value, a[1..], b);
      }
    }
  }

  /** A snapshot of a `Table`'s three fields. */
  datatype TableData = TableData(baselines: seq<Entry>, entries: seq<Entry>, settings: Settings)

  /** One worksheet's baselines, entries and settings. */
  class Table {
    var baselines: seq<Entry>
    var entries: seq<Entry>
    var settings: Settings

    constructor ()
      ensures baselines == [] && entries == [] && settings == Defaults
    {
      baselines := [];
      entries := [];
      settings := Defaults;
    }

    function Data(): TableData
      reads this
    {
      TableData(baselines, entries, settings)
    }

    method Add(e: Entry)
      modifies this
      ensures entries == old(entries) + [e]
      ensures baselines == old(baselines) && settings == old(settings)
    {
      entries := entries + [e];
    }

    method AddBaseline(e: Entry)
      modifies this
      ensures baselines == old(baselines) + [e]
      ensures entries == old(entries) && settings == old(settings)
    {
      baselines := baselines + [e];
    }

    /** `setting(**kwargs)`: a keyword named `self` raises `TypeError`
        before anything is assigned; otherwise applies each keyword in turn
        and returns the error a failed coercion raises. */
    method Setting(kwargs: seq<(string, Raw)>) returns (err: Option<SettingError>)
      modifies this
      ensures PassesSelf(kwargs) ==> settings == old(settings) && err == Some(SelfKeyword)
      ensures !PassesSelf(kwargs) ==> Applied(settings, err) == ApplySettings(old(settings), kwargs)
      ensures entries == old(entries) && baselines == old(baselines)
    {
      if PassesSelf(kwargs) {
        return Some(SelfKeyword);
      }
      var i := 0;
      while i < |kwargs|
        invariant 0 <= i <= |kwargs|
        invariant ApplySettings(settings, kwargs[i..]) == ApplySettings(old(settings), kwargs)
        invariant entries == old(entries) && baselines == old(baselines)
        invariant !PassesSelf(kwargs[i..])
      {
        var (a, v) := kwargs[i];
        var r := ApplySetting(settings, a, v);
        if r.Failure? {
          return Some(r.error);
        }
        settings := r.value;
        i := i + 1;
      }
      err := None;
    }
  }
}
