/** The settings store (src/handlers/settings_handlers.py): a flat window
    settings record, and the filler settings with a "mono" and a "double"
    section, each holding a preset list and a record of day offsets. Writing
    the JSON file is modelled as appending the stored data to `written`. */
module SettingsHandlers {
  import opened Wrappers

  // ---------------------------------------------------------------------
  // Window settings
  // ---------------------------------------------------------------------

  /** The settings after `set_new_settings(**updates)`: every field keeps its
      name, takes the keyword's value when there is one, and keeps its old
      value otherwise; keywords that name no field are dropped. */
  function UpdatedSettings<V>(current: map<string, V>, updates: map<string, V>): (r: map<string, V>)
    ensures r.Keys == current.Keys
    ensures forall k :: k in current && k in updates ==> r[k] == updates[k]
    ensures forall k :: k in current && k !in updates ==> r[k] == current[k]
  {
    map k | k in current :: if k in updates then updates[k] else current[k]
  }

  /** `WindowSettingsHandler`: the settings record and the writes made. */
  class WindowSettingsHandler<V> {
    var data: map<string, V>
    var written: seq<map<string, V>>

    /** The handler after reading the file, which is not modelled: `initial`
        stands for its contents. */
    constructor (initial: map<string, V>)
      ensures data == initial && written == []
    {
      data := initial;
      written := [];
    }

    /** `set_new_settings`: copy the record, overwrite each field named by a
        keyword, store the result and write it out, always. */
    method SetNewSettings(kwargs: map<string, V>)
      modifies this
      ensures data == UpdatedSettings(old(data), kwargs)
      ensures written == old(written) + [data]
    {
      var newSettings := data;
      var todo := kwargs.Keys;
      while todo != {}
        invariant todo <= kwargs.Keys
        invariant newSettings.Keys == data.Keys
        invariant forall k :: k in data && k in kwargs && k !in todo ==> newSettings[k] == kwargs[k]
        invariant forall k :: k in data && (k !in kwargs || k in todo) ==> newSettings[k] == data[k]
        decreases todo
      {
        var key :| key in todo;
        if key in data {
          newSettings := newSettings[key := kwargs[key]];
        }
        todo := todo - {key};
      }
      data := newSettings;
      written := written + [data];
    }
  }

  // ---------------------------------------------------------------------
  // Filler settings: data model
  // ---------------------------------------------------------------------

  /** A preset. A mono preset has the six fields of `MonoPresetModel`; the
      fields of a double preset other than its name are not part of this
      model and are kept as an opaque mapping. */
  datatype Preset =
    | MonoPreset(name: string, contactId: string, accountNumber: string,
                 contractNumber: string, productType: string, communicationType: string)
    | DoublePreset(name: string, details: map<string, string>)

  /** One settings section: its presets and its day offsets by field name
      (for "mono": `date_1`, `date_2`, `date_3`, `std`). */
  datatype Section = Section(presets: seq<Preset>, dates: map<string, int>)

  datatype FillerSettings = FillerSettings(mono: Section, double: Section) {
    function Get(isMono: bool): Section {
      if isMono then mono else double
    }

    function With(isMono: bool, s: Section): (r: FillerSettings)
      ensures r.Get(isMono) == s && r.Get(!isMono) == Get(!isMono)
    {
      if isMono then this.(mono := s) else this.(double := s)
    }
  }

  /** The exceptions the store raises, with their messages. */
  datatype SettingsError = KeyError(message: string) | PresetException(message: string)

  function NoKeyError(key: string): SettingsError {
    KeyError("No key with name: " + key)
  }

  function PresetExistsError(name: string): SettingsError {
    PresetException("Preset with name: '" + name + "' already exist")
  }

  function NoPresetError(name: string): SettingsError {
    PresetException("No preset with name: '" + name + "'")
  }

  // ---------------------------------------------------------------------
  // Filler settings: specification functions
  // ---------------------------------------------------------------------

  /** The preset names, in list order. */
  function Names(ps: seq<Preset>): (names: seq<string>)
    ensures |names| == |ps|
    ensures forall i :: 0 <= i < |ps| ==> names[i] == ps[i].name
  {
    if ps == [] then [] else [ps[0].name] + Names(ps[1..])
  }

  /** The first index with the name is what `FirstNamed` finds. */
  lemma FirstNamedIs(ps: seq<Preset>, name: string, i: nat)
    requires i < |ps| && ps[i].name == name
    requires forall k :: 0 <= k < i ==> ps[k].name != name
    ensures FirstNamed(ps, name) == i
  {
  }

  /** No two presets share a name. */
  predicate UniqueNames(ps: seq<Preset>) {
    forall i, j :: 0 <= i < j < |ps| ==> ps[i].name != ps[j].name
  }

  /** The position of the first preset called `name`, or `|ps|` if none is. */
  function FirstNamed(ps: seq<Preset>, name: string): (i: nat)
    ensures i <= |ps|
    ensures i < |ps| ==> ps[i].name == name
    ensures forall k :: 0 <= k < i ==> ps[k].name != name
  {
    if ps == [] then 0
    else if ps[0].name == name then 0
    else 1 + FirstNamed(ps[1..], name)
  }

  /** The list without its first preset called `name` (unchanged if none is). */
  function RemoveFirstNamed(ps: seq<Preset>, name: string): (r: seq<Preset>)
    ensures name !in Names(ps) ==> r == ps
    ensures name in Names(ps) ==> |r| == |ps| - 1
  {
    var i := FirstNamed(ps, name);
    if i < |ps| then ps[..i] + ps[i + 1..] else ps
  }

  /** The offsets after applying the keywords in order: each must name an
      existing offset, and the first that does not is a `KeyError`. */
  function ApplyDates(dates: map<string, int>, kwargs: seq<(string, int)>): (r: Result<map<string, int>, SettingsError>)
    ensures r.Success? ==> r.value.Keys == dates.Keys
    decreases |kwargs|
  {
    if kwargs == [] then Success(dates)
    else if kwargs[0].0 in dates then ApplyDates(dates[kwargs[0].0 := kwargs[0].1], kwargs[1..])
    else Failure(NoKeyError(kwargs[0].0))
  }

  // ---------------------------------------------------------------------
  // Filler settings: the handler
  // ---------------------------------------------------------------------

  /** `FillerSettingsHandler`: the filler settings and the writes made. */
  class FillerSettingsHandler {
    var data: FillerSettings
    var written: seq<FillerSettings>

    /** The handler after reading the file, which is not modelled: `initial`
        stands for its contents. */
    constructor (initial: FillerSettings)
      ensures data == initial && written == []
    {
      data := initial;
      written := [];
    }

    /** `set_new_data_settings`: set the named offsets of one section in a
        copy; an unknown name raises `KeyError` before anything is stored or
        written. On success only that section's offsets change. */
    method SetNewDataSettings(isMonoSettings: bool, kwargs: seq<(string, int)>)
      returns (r: Result<(), SettingsError>)
      modifies this
      ensures var applied := ApplyDates(old(data).Get(isMonoSettings).dates, kwargs);
        && (r.Failure? <==> applied.Failure?)
        && (r.Failure? ==> r.error == applied.error && data == old(data) && written == old(written))
        && (r.Success? ==>
              && data == old(data).With(isMonoSettings, old(data).Get(isMonoSettings).(dates := applied.value))
              && written == old(written) + [data])
    {
      var newSettings := data.Get(isMonoSettings);
      ghost var start := newSettings.dates;
      var i := 0;
      while i < |kwargs|
        invariant 0 <= i <= |kwargs|
        invariant newSettings.presets == data.Get(isMonoSettings).presets
        invariant ApplyDates(newSettings.dates, kwargs[i..]) == ApplyDates(start, kwargs)
      {
        var (key, value) := kwargs[i];
        assert kwargs[i..][1..] == kwargs[i + 1..];
        if key in newSettings.dates {
          newSettings := newSettings.(dates := newSettings.dates[key := value]);
        } else {
          return Failure(NoKeyError(key));
        }
        i := i + 1;
      }
      data := data.With(isMonoSettings, newSettings);
      written := written + [data];
      r := Success(());
    }

    /** `add_new_preset`: a mono preset goes to the end of the mono list and a
        double preset to the end of the double list, unless a preset of that
        list already has its name; then `PresetException` is raised and
        nothing changes or is written. */
    method AddNewPreset(newPreset: Preset) returns (r: Result<(), SettingsError>)
      modifies this
      ensures var isMono := newPreset.MonoPreset?;
        var section := old(data).Get(isMono);
        && (r.Failure? <==> newPreset.name in Names(section.presets))
        && (r.Failure? ==> r.error == PresetExistsError(newPreset.name) && data == old(data) && written == old(written))
        && (r.Success? ==>
              && data == old(data).With(isMono, section.(presets := section.presets + [newPreset]))
              && written == old(written) + [data])
    {
      var isMono := newPreset.MonoPreset?;
      var section := data.Get(isMono);
      var presetNames := Names(section.presets);
      if newPreset.name !in presetNames {
        data := data.With(isMono, section.(presets := section.presets + [newPreset]));
      } else {
        return Failure(PresetExistsError(newPreset.name));
      }
      written := written + [data];
      r := Success(());
    }

    /** `delete_preset_by_name`: scan the chosen list, remove the first preset
        with the name and stop; write only if one was removed, and raise
        `PresetException` otherwise. */
    method DeletePresetByName(presetName: string, isFromMono: bool) returns (r: Result<(), SettingsError>)
      modifies this
      ensures var section := old(data).Get(isFromMono);
        && (r.Failure? <==> presetName !in Names(section.presets))
        && (r.Failure? ==> r.error == NoPresetError(presetName) && data == old(data) && written == old(written))
        && (r.Success? ==>
              && data == old(data).With(isFromMono, section.(presets := RemoveFirstNamed(section.presets, presetName)))
              && written == old(written) + [data])
    {
      var isDeleteAnyPreset := false;
      var section := data.Get(isFromMono);
      ghost var presets := section.presets;
      var i := 0;
      while i < |section.presets|
        invariant 0 <= i <= |presets|
        invariant !isDeleteAnyPreset ==> section.presets == presets && forall k :: 0 <= k < i ==> presets[k].name != presetName
        invariant isDeleteAnyPreset ==> section.presets == RemoveFirstNamed(presets, presetName) && FirstNamed(presets, presetName) < |presets|
        invariant section.dates == data.Get(isFromMono).dates
        invariant data == old(data)
        decreases if isDeleteAnyPreset then 0 else |presets| - i + 1
      {
        if section.presets[i].name == presetName {
          FirstNamedAt(presets, presetName, i);
          section := section.(presets := section.presets[..i] + section.presets[i + 1..]);
          isDeleteAnyPreset := true;
          break;
        }
        i := i + 1;
      }
      if isDeleteAnyPreset {
        data := data.With(isFromMono, section);
        written := written + [data];
        r := Success(());
      } else {
        NotNamedNotIn(presets, presetName);
        r := Failure(NoPresetError(presetName));
      }
    }

    /** `get_all_presets_names`: the names of the chosen list, in order. */
    function GetAllPresetsNames(isForMono: bool): (names: seq<string>)
      reads this
      ensures |names| == |data.Get(isForMono).presets|
      ensures forall i :: 0 <= i < |names| ==> names[i] == data.Get(isForMono).presets[i].name
    {
      Names(data.Get(isForMono).presets)
    }

    /** `get_preset_by_name`: the first preset of the chosen list with the
        name, or `PresetException` when there is none. */
    method GetPresetByName(name: string, isForMono: bool) returns (r: Result<Preset, SettingsError>)
      ensures var ps := data.Get(isForMono).presets;
        && (r.Success? <==> name in Names(ps))
        && (r.Success? ==> exists i :: 0 <= i < |ps| && r.value == ps[i] && ps[i].name == name
                                       && forall k :: 0 <= k < i ==> ps[k].name != name)
        && (r.Success? ==> FirstNamed(ps, name) < |ps| && r.value == ps[FirstNamed(ps, name)])
        && (r.Failure? ==> r.error == NoPresetError(name))
    {
      var presets := data.Get(isForMono).presets;
      var i := 0;
      while i < |presets|
        invariant 0 <= i <= |presets|
        invariant forall k :: 0 <= k < i ==> presets[k].name != name
      {
        if name == presets[i].name {
          assert Names(presets)[i] == name;
          FirstNamedIs(presets, name, i);
          return Success(presets[i]);
        }
        i := i + 1;
      }
      NotNamedNotIn(presets, name);
      r := Failure(NoPresetError(name));
    }
  }

  // ---------------------------------------------------------------------
  // Filler settings: properties
  // ---------------------------------------------------------------------

  /** A match with no earlier match is the first one. */
  lemma FirstNamedAt(ps: seq<Preset>, name: string, i: nat)
    requires i < |ps| && ps[i].name == name
    requires forall k :: 0 <= k < i ==> ps[k].name != name
    ensures FirstNamed(ps, name) == i
  {
  }

  /** A name carried by no preset is not among the names. */
  lemma NotNamedNotIn(ps: seq<Preset>, name: string)
    requires forall k :: 0 <= k < |ps| ==> ps[k].name != name
    ensures name !in Names(ps)
  {
    forall k | 0 <= k < |ps| ensures Names(ps)[k] != name {
    }
  }

  /** Adding a preset whose name is new keeps the names unique. */
  lemma AddKeepsNamesUnique(ps: seq<Preset>, p: Preset)
    requires UniqueNames(ps)
    requires p.name !in Names(ps)
    ensures UniqueNames(ps + [p])
  {
    var qs := ps + [p];
    forall i, j | 0 <= i < j < |qs| ensures qs[i].name != qs[j].name {
      if j == |ps| {
        assert Names(ps)[i] == ps[i].name;
      }
    }
  }

  /** Removing the first preset with a name keeps the others in order, and
      the removed preset is the first one with that name. */
  lemma RemoveFirstNamedShape(ps: seq<Preset>, name: string)
    requires name in Names(ps)
    ensures var i := FirstNamed(ps, name);
      && i < |ps| && ps[i].name == name
      && RemoveFirstNamed(ps, name) == ps[..i] + ps[i + 1..]
      && |RemoveFirstNamed(ps, name)| == |ps| - 1
  {
    InNamesFound(ps, name);
  }

  /** A name in the list is found by `FirstNamed`. */
  lemma InNamesFound(ps: seq<Preset>, name: string)
    requires name in Names(ps)
    ensures FirstNamed(ps, name) < |ps|
  {
    var k :| 0 <= k < |ps| && Names(ps)[k] == name;
    assert ps[k].name == name;
  }

  /** With unique names, deleting a name removes it from the list, and the
      names left are still unique. */
  lemma RemoveFirstNamedRemovesName(ps: seq<Preset>, name: string)
    requires UniqueNames(ps)
    requires name in Names(ps)
    ensures name !in Names(RemoveFirstNamed(ps, name))
    ensures UniqueNames(RemoveFirstNamed(ps, name))
  {
    RemoveFirstNamedShape(ps, name);
    var i := FirstNamed(ps, name);
    var qs := ps[..i] + ps[i + 1..];
    forall k | 0 <= k < |qs| ensures qs[k].name != name {
      RemovedAt(ps, i, k);
    }
    NotNamedNotIn(qs, name);
    forall a, b | 0 <= a < b < |qs| ensures qs[a].name != qs[b].name {
      RemovedAt(ps, i, a);
      RemovedAt(ps, i, b);
    }
  }

  /** Where the elements of a list with one element removed come from. */
  lemma RemovedAt<T>(xs: seq<T>, i: nat, k: nat)
    requires i < |xs| && k < |xs| - 1
    ensures (xs[..i] + xs[i + 1..])[k] == if k < i then xs[k] else xs[k + 1]
  {
  }

  /** Deleting the name of a preset just added with a fresh name gives back
      the list as it was before the addition. */
  lemma DeleteUndoesAdd(ps: seq<Preset>, p: Preset)
    requires p.name !in Names(ps)
    ensures RemoveFirstNamed(ps + [p], p.name) == ps
  {
    var qs := ps + [p];
    forall k | 0 <= k < |ps| ensures qs[k].name != p.name {
      assert Names(ps)[k] == ps[k].name;
    }
    FirstNamedAt(qs, p.name, |ps|);
    assert qs[..|ps|] == ps;
  }

  /** The keywords fail exactly when one of them names no offset, and the
      error names the first such keyword. */
  lemma ApplyDatesFailsIff(dates: map<string, int>, kwargs: seq<(string, int)>)
    ensures ApplyDates(dates, kwargs).Failure? <==> exists i :: 0 <= i < |kwargs| && kwargs[i].0 !in dates
    ensures ApplyDates(dates, kwargs).Failure? ==>
      exists i :: 0 <= i < |kwargs| && kwargs[i].0 !in dates
        && (forall k :: 0 <= k < i ==> kwargs[k].0 in dates)
        && ApplyDates(dates, kwargs).error == NoKeyError(kwargs[i].0)
  {
    ApplyDatesFailsExactly(dates, kwargs);
    ApplyDatesFirstUnknown(dates, kwargs);
  }

  /** The keywords fail exactly when one of them names no offset. */
  lemma {:induction false} ApplyDatesFailsExactly(dates: map<string, int>, kwargs: seq<(string, int)>)
    ensures ApplyDates(dates, kwargs).Failure? <==> exists i :: 0 <= i < |kwargs| && kwargs[i].0 !in dates
    decreases |kwargs|
  {
    if kwargs != [] {
      var (key, value) := kwargs[0];
      if key in dates {
        var d := dates[key := value];
        assert d.Keys == dates.Keys;
        ApplyDatesFailsExactly(d, kwargs[1..]);
        if ApplyDates(dates, kwargs).Failure? {
          var i :| 0 <= i < |kwargs[1..]| && kwargs[1..][i].0 !in d;
          assert kwargs[i + 1] == kwargs[1..][i];
        } else {
          forall i | 0 <= i < |kwargs| ensures kwargs[i].0 in dates {
            if i > 0 {
              assert kwargs[i] == kwargs[1..][i - 1];
            }
          }
        }
      }
    }
  }

  /** A failure names the first keyword that names no offset. */
  lemma {:induction false} ApplyDatesFirstUnknown(dates: map<string, int>, kwargs: seq<(string, int)>)
    ensures ApplyDates(dates, kwargs).Failure? ==>
      exists i :: 0 <= i < |kwargs| && kwargs[i].0 !in dates
        && (forall k :: 0 <= k < i ==> kwargs[k].0 in dates)
        && ApplyDates(dates, kwargs).error == NoKeyError(kwargs[i].0)
    decreases |kwargs|
  {
    if kwargs != [] {
      var (key, value) := kwargs[0];
      if key in dates {
        var d := dates[key := value];
        assert d.Keys == dates.Keys;
        ApplyDatesFirstUnknown(d, kwargs[1..]);
        assert ApplyDates(dates, kwargs) == ApplyDates(d, kwargs[1..]);
        if ApplyDates(dates, kwargs).Failure? {
          var i :| 0 <= i < |kwargs[1..]| && kwargs[1..][i].0 !in d
            && (forall k :: 0 <= k < i ==> kwargs[1..][k].0 in d)
            && ApplyDates(d, kwargs[1..]).error == NoKeyError(kwargs[1..][i].0);
          PrefixKnown(dates, d, kwargs, i);
        }
      }
    }
  }

  /** The step of `ApplyDatesFirstUnknown`: the first unknown keyword of the
      rest, at `i`, is the first unknown one of the whole list, at `i + 1`. */
  lemma PrefixKnown(dates: map<string, int>, d: map<string, int>, kwargs: seq<(string, int)>, i: nat)
    requires |kwargs| > 0 && kwargs[0].0 in dates && d.Keys == dates.Keys
    requires i < |kwargs| - 1 && kwargs[1..][i].0 !in d
    requires forall k :: 0 <= k < i ==> kwargs[1..][k].0 in d
    ensures kwargs[i + 1].0 !in dates && kwargs[i + 1] == kwargs[1..][i]
    ensures forall k :: 0 <= k < i + 1 ==> kwargs[k].0 in dates
  {
    forall k | 0 <= k < i + 1 ensures kwargs[k].0 in dates {
      if k > 0 {
        assert kwargs[k] == kwargs[1..][k - 1];
      }
    }
  }

  /** An offset that no keyword names keeps its value. */
  lemma {:induction false} ApplyDatesUntouched(dates: map<string, int>, kwargs: seq<(string, int)>, key: string)
    requires ApplyDates(dates, kwargs).Success?
    requires key in dates
    requires forall i :: 0 <= i < |kwargs| ==> kwargs[i].0 != key
    ensures ApplyDates(dates, kwargs).value[key] == dates[key]
    decreases |kwargs|
  {
    if kwargs != [] {
      var d := dates[kwargs[0].0 := kwargs[0].1];
      forall i | 0 <= i < |kwargs[1..]| ensures kwargs[1..][i].0 != key {
        assert kwargs[1..][i] == kwargs[i + 1];
      }
      ApplyDatesUntouched(d, kwargs[1..], key);
    }
  }

  /** When a name is given several times, the last keyword's value is stored. */
  lemma {:induction false} ApplyDatesLastWins(dates: map<string, int>, kwargs: seq<(string, int)>, i: nat)
    requires ApplyDates(dates, kwargs).Success?
    requires i < |kwargs|
    requires forall j :: i < j < |kwargs| ==> kwargs[j].0 != kwargs[i].0
    ensures kwargs[i].0 in ApplyDates(dates, kwargs).value
    ensures ApplyDates(dates, kwargs).value[kwargs[i].0] == kwargs[i].1
    decreases |kwargs|
  {
    var d := dates[kwargs[0].0 := kwargs[0].1];
    var rest := kwargs[1..];
    if i == 0 {
      forall j | 0 <= j < |rest| ensures rest[j].0 != kwargs[0].0 {
        assert rest[j] == kwargs[j + 1];
      }
      ApplyDatesUntouched(d, rest, kwargs[0].0);
    } else {
      assert rest[i - 1] == kwargs[i];
      forall j | i - 1 < j < |rest| ensures rest[j].0 != rest[i - 1].0 {
        assert rest[j] == kwargs[j + 1];
      }
      ApplyDatesLastWins(d, rest, i - 1);
    }
  }
}
