/**
 The audio route: named paths of mixer settings that grow in place, and the cache of mixer
 values (old, new and reset) that update_mixer writes back to the hardware.
 */
module AudioRouting {
  import opened MixerOverlay
  import opened Options

  const INITIAL_MIXER_PATH_SIZE: nat := 8

  /** index -1 addresses all values of the control. */
  datatype MixerValue = MixerValue(ctlIndex: nat, index: int, value: int)

  datatype CtlType = BoolCtl | IntCtl | EnumCtl

  /** The settings of `sub` that path_add_path takes over: those before the first control already present. */
  function Taken(own: seq<MixerSetting>, sub: seq<MixerSetting>, n: nat): (k: nat)
    requires n <= |sub|
    ensures k <= n
    ensures forall i :: 0 <= i < k ==> !Lists(own, sub[i].ctlIndex)
    ensures k < n ==> Lists(own, sub[k].ctlIndex)
  {
    if n == 0 then 0
    else
      var k := Taken(own, sub, n - 1);
      if k == n - 1 && !Lists(own, sub[n - 1].ctlIndex) then n else k
  }

  /** The values of a control after path_add_value, from those its setting had. */
  function WithValue(values: seq<int>, v: MixerValue): (r: seq<int>)
    requires -1 <= v.index < |values|
    ensures |r| == |values|
  {
    if v.index == -1 then AllSame(|values|, v.value) else values[v.index := v.value]
  }

  function AllSame(n: nat, value: int): (r: seq<int>)
    ensures |r| == n && forall i :: 0 <= i < n ==> r[i] == value
  {
    seq(n, _ => value)
  }

  /** The settings after path_add_value; `memory` is what a new setting's values held before. */
  function WithSetting(settings: seq<MixerSetting>, v: MixerValue, memory: seq<int>): seq<MixerSetting>
    requires -1 <= v.index < |memory| && 0 < |memory|
    requires forall i :: 0 <= i < |settings| && settings[i].ctlIndex == v.ctlIndex ==> |settings[i].value| == |memory|
  {
    var k := PlaceOf(settings, v.ctlIndex);
    if k == |settings| then settings + [MixerSetting(v.ctlIndex, WithValue(memory[0 := v.value], v))]
    else settings[k := MixerSetting(v.ctlIndex, WithValue(settings[k].value, v))]
  }

  /**
   What adding a value means, element by element. A listed control keeps its place and the elements that the
   index does not name; a new one comes last, with the value in element 0 too and what the memory held in the others.
   */
  ghost predicate ValueAdded(before: seq<MixerSetting>, after: seq<MixerSetting>, v: MixerValue, memory: seq<int>)
    requires forall i :: 0 <= i < |before| && before[i].ctlIndex == v.ctlIndex ==> |before[i].value| == |memory|
  {
    && |after| == |before| + (if Lists(before, v.ctlIndex) then 0 else 1)
    && (forall i :: 0 <= i < |before| ==> after[i].ctlIndex == before[i].ctlIndex)
    && (forall i :: 0 <= i < |before| && before[i].ctlIndex != v.ctlIndex ==> after[i] == before[i])
    && (|before| < |after| ==> after[|before|].ctlIndex == v.ctlIndex)
    && (forall i :: 0 <= i < |after| && after[i].ctlIndex == v.ctlIndex ==> |after[i].value| == |memory|)
    && (forall i, j :: 0 <= i < |after| && after[i].ctlIndex == v.ctlIndex && 0 <= j < |memory| ==>
          after[i].value[j] ==
            if v.index == -1 || j == v.index then v.value
            else if i < |before| then before[i].value[j]
            else if j == 0 then v.value
            else memory[j])
  }

  lemma ValueIsAdded(settings: seq<MixerSetting>, v: MixerValue, memory: seq<int>)
    requires -1 <= v.index < |memory| && 0 < |memory| && DistinctControls(settings)
    requires forall i :: 0 <= i < |settings| && settings[i].ctlIndex == v.ctlIndex ==> |settings[i].value| == |memory|
    ensures ValueAdded(settings, WithSetting(settings, v, memory), v, memory)
  {
    var k, after := PlaceOf(settings, v.ctlIndex), WithSetting(settings, v, memory);
    if k == |settings| {
      assert forall i :: 0 <= i < |settings| ==> settings[i].ctlIndex != v.ctlIndex;
      WithValueAt(memory[0 := v.value], v);
    } else {
      assert forall i :: 0 <= i < |settings| && settings[i].ctlIndex == v.ctlIndex ==> i == k;
      WithValueAt(settings[k].value, v);
    }
  }

  lemma WithValueAt(values: seq<int>, v: MixerValue)
    requires -1 <= v.index < |values|
    ensures forall j :: 0 <= j < |values| ==>
              WithValue(values, v)[j] == if v.index == -1 || j == v.index then v.value else values[j]
  {
  }

  class MixerPath {
    const name: string
    var size: nat
    var length: nat
    var setting: array<MixerSetting>

    constructor (pathName: string)
      ensures name == pathName && size == length == 0 && setting.Length == 0 && fresh(setting)
    {
      name := pathName;
      size, length := 0, 0;
      setting := new MixerSetting[0];
    }

    ghost function Settings(): seq<MixerSetting>
      reads this, setting
      requires length <= setting.Length
    {
      setting[..length]
    }

    /** The settings fit the mixer's controls, list each control once and fit the allocated array. */
    ghost predicate Valid(sizes: seq<nat>)
      reads this, setting
    {
      && length <= size == setting.Length
      && SettingsFit(Settings(), sizes)
      && DistinctControls(Settings())
    }

    method FindCtlIndexInPath(ctlIndex: nat) returns (index: int)
      requires length <= setting.Length
      ensures index == if Lists(Settings(), ctlIndex) then PlaceOf(Settings(), ctlIndex) else -1
    {
      for i := 0 to length
        invariant forall j :: 0 <= j < i ==> Settings()[j].ctlIndex != ctlIndex
      {
        if setting[i].ctlIndex == ctlIndex {
          assert Settings()[i].ctlIndex == ctlIndex;
          return i;
        }
      }
      return -1;
    }

    /** Room for one more setting; the array doubles when it is full and keeps its settings. */
    method AllocPathSetting() returns (index: nat)
      requires length <= size == setting.Length
      modifies this
      ensures index == old(length) && length == old(length) + 1 && length <= size == setting.Length
      ensures size == if old(size) > old(length) then old(size)
                      else if old(size) == 0 then INITIAL_MIXER_PATH_SIZE else 2 * old(size)
      ensures setting == old(setting) || fresh(setting)
      ensures setting[..index] == old(Settings())
    {
      if size <= length {
        size := if size == 0 then INITIAL_MIXER_PATH_SIZE else 2 * size;
        var grown := new MixerSetting[size];
        forall i | 0 <= i < setting.Length {
          grown[i] := setting[i];
        }
        setting := grown;
      }
      index := length;
      length := length + 1;
    }

    /** A control can be set only once in a path. */
    method AddSetting(s: MixerSetting, ghost sizes: seq<nat>) returns (r: int)
      requires Valid(sizes) && s.ctlIndex < |sizes| && |s.value| == sizes[s.ctlIndex]
      modifies this, setting
      ensures Valid(sizes) && (setting == old(setting) || fresh(setting))
      ensures r == if Lists(old(Settings()), s.ctlIndex) then -1 else 0
      ensures Settings() == if r == 0 then old(Settings()) + [s] else old(Settings())
    {
      var found := FindCtlIndexInPath(s.ctlIndex);
      if found != -1 {
        return -1;
      }
      var index := AllocPathSetting();
      setting[index] := s;
      assert Settings() == old(Settings()) + [s];
      return 0;
    }

    /** The assignments at the end of path_add_value. */
    method SetValues(index: nat, v: MixerValue)
      requires length <= setting.Length && index < length && -1 <= v.index < |setting[index].value|
      modifies setting
      ensures Settings() == old(Settings())[index := MixerSetting(old(setting[index]).ctlIndex,
                                                                  WithValue(old(setting[index]).value, v))]
    {
      if v.index == -1 {
        var numValues := |setting[index].value|;
        for i := 0 to numValues
          invariant |setting[index].value| == numValues && setting[index].ctlIndex == old(setting[index]).ctlIndex
          invariant forall j :: 0 <= j < i ==> setting[index].value[j] == v.value
          invariant forall j :: 0 <= j < length && j != index ==> setting[j] == old(setting[j])
        {
          setting[index] := setting[index].(value := setting[index].value[i := v.value]);
        }
      } else {
        setting[index] := setting[index].(value := setting[index].value[v.index := v.value]);
      }
      assert setting[index].value == WithValue(old(setting[index]).value, v);
    }

    /**
     Sets one value of a control, or all of them. `memory` is what the new setting's values held
     before: with an index, all but element 0 and the indexed one stay that way.
     */
    method AddValue(v: MixerValue, memory: seq<int>, sizes: seq<nat>) returns (r: int)
      requires Valid(sizes) && v.ctlIndex < |sizes| && 0 < sizes[v.ctlIndex] == |memory| && -1 <= v.index
      modifies this, setting
      ensures Valid(sizes) && (setting == old(setting) || fresh(setting))
      ensures r == if v.index >= sizes[v.ctlIndex] then -1 else 0
      ensures r == -1 ==> Settings() == old(Settings())
      ensures r == 0 ==> Settings() == WithSetting(old(Settings()), v, memory)
      ensures r == 0 ==> ValueAdded(old(Settings()), Settings(), v, memory)
    {
      hide ValueAdded;
      var numValues := sizes[v.ctlIndex];
      if v.index >= numValues {
        return -1;
      }
      var found := FindCtlIndexInPath(v.ctlIndex);
      ghost var before := Settings();
      var index: nat;
      if found < 0 {
        index := AllocPathSetting();
        setting[index] := MixerSetting(v.ctlIndex, memory[0 := v.value]);
        assert Settings() == before + [MixerSetting(v.ctlIndex, memory[0 := v.value])];
      } else {
        index := found;
      }
      SetValues(index, v);
      WithSettingFits(before, v, memory, sizes);
      ValueIsAdded(before, v, memory);
      assert Settings() == WithSetting(before, v, memory);
      return 0;
    }

    /** Takes over the settings of another path up to the first control that is already set here. */
    method AddPath(sub: MixerPath, ghost sizes: seq<nat>) returns (r: int)
      requires Valid(sizes) && sub.Valid(sizes)
      requires sub != this ==> sub.setting != setting
      modifies this, setting
      ensures Valid(sizes) && (setting == old(setting) || fresh(setting))
      ensures var own, other := old(Settings()), old(sub.Settings());
              var k := Taken(own, other, |other|);
              && Settings() == own + other[..k]
              && r == (if k == |other| then 0 else -1)
    {
      hide Lists, SettingsFit, DistinctControls;
      ghost var own, other := Settings(), sub.Settings();
      var i := 0;
      while i < sub.length
        invariant setting == old(setting) || fresh(setting)
        invariant Valid(sizes) && i <= |other|
        invariant sub == this ==> i == 0
        invariant sub != this ==> sub.length == |other| && sub.setting == old(sub.setting) && sub.Settings() == other
        invariant i <= Taken(own, other, |other|)
        invariant Settings() == own + other[..i]
        decreases |other| - i
      {
        assert sub.Settings()[i] == other[i];
        var s := sub.setting[i];
        SettingFits(other, i, sizes);
        StillTaken(own, other, i);
        if sub == this {
          ListsOwn(own, i);
        }
        var added := AddSetting(s, sizes);
        if added < 0 {
          return -1;
        }
        i := i + 1;
      }
      return 0;
    }
  }

  lemma WithSettingFits(settings: seq<MixerSetting>, v: MixerValue, memory: seq<int>, sizes: seq<nat>)
    requires SettingsFit(settings, sizes) && DistinctControls(settings)
    requires v.ctlIndex < |sizes| && 0 < |memory| == sizes[v.ctlIndex] && -1 <= v.index < |memory|
    ensures SettingsFit(WithSetting(settings, v, memory), sizes) && DistinctControls(WithSetting(settings, v, memory))
  {
    if PlaceOf(settings, v.ctlIndex) == |settings| {
      assert forall i :: 0 <= i < |settings| ==> settings[i].ctlIndex != v.ctlIndex;
    }
  }

  lemma SettingFits(settings: seq<MixerSetting>, i: nat, sizes: seq<nat>)
    requires SettingsFit(settings, sizes) && i < |settings|
    ensures settings[i].ctlIndex < |sizes| && |settings[i].value| == sizes[settings[i].ctlIndex]
  {
  }

  lemma ListsOwn(own: seq<MixerSetting>, i: nat)
    requires i < |own|
    ensures Lists(own, own[i].ctlIndex)
  {
  }

  /** Entry i can be added after the first i exactly when the path itself does not list its control. */
  lemma StillTaken(own: seq<MixerSetting>, sub: seq<MixerSetting>, i: nat)
    requires i < |sub| && DistinctControls(sub) && i <= Taken(own, sub, |sub|)
    ensures Lists(own + sub[..i], sub[i].ctlIndex) <==> Lists(own, sub[i].ctlIndex)
    ensures Lists(own, sub[i].ctlIndex) <==> Taken(own, sub, |sub|) == i
  {
    var all := own + sub[..i];
    if Lists(own, sub[i].ctlIndex) {
      var j :| 0 <= j < |own| && own[j].ctlIndex == sub[i].ctlIndex;
      assert all[j] == own[j];
    }
  }

  /** The sound card's controls: what was last stored in each, and which were stored to, in order. */
  class Mixer {
    var value: Values
    var writes: seq<nat>

    constructor (initial: Values)
      ensures value == initial && writes == []
    {
      value, writes := initial, [];
    }

    method SetValue(c: nat, id: nat, v: int)
      requires c < |value| && id < |value[c]|
      modifies this
      ensures value == old(value)[c := old(value)[c][id := v]] && writes == old(writes) + [c]
    {
      value := value[c := value[c][id := v]];
      writes := writes + [c];
    }

    method SetArray(c: nat, v: seq<int>)
      requires c < |value| && |v| == |value[c]|
      modifies this
      ensures value == old(value)[c := v] && writes == old(writes) + [c]
    {
      value := value[c := v];
      writes := writes + [c];
    }
  }

  /** A path's name and settings, as audio_route_apply_path finds them. */
  type Table = seq<(string, seq<MixerSetting>)>

  /** The settings of the first path with a name; none when there is no such path. */
  function Lookup(table: Table, name: string): seq<MixerSetting> {
    if table == [] then []
    else if table[0].0 == name then table[0].1
    else Lookup(table[1..], name)
  }

  ghost predicate TableFits(table: Table, sizes: seq<nat>) {
    forall i :: 0 <= i < |table| ==> SettingsFit(table[i].1, sizes) && DistinctControls(table[i].1)
  }

  ghost predicate UniqueNames(table: Table) {
    forall i, j :: 0 <= i < j < |table| ==> table[i].0 != table[j].0
  }

  predicate Named(table: Table, name: string) {
    exists i :: 0 <= i < |table| && table[i].0 == name
  }

  lemma {:induction false} LookupFits(table: Table, name: string, sizes: seq<nat>)
    requires TableFits(table, sizes)
    ensures SettingsFit(Lookup(table, name), sizes) && DistinctControls(Lookup(table, name))
  {
    if table != [] {
      LookupFits(table[1..], name, sizes);
    }
  }

  /** With unique names a lookup finds the path that has the name, wherever it is. */
  lemma {:induction false} LookupUnique(table: Table, i: nat)
    requires UniqueNames(table) && i < |table|
    ensures Lookup(table, table[i].0) == table[i].1
  {
    if i > 0 {
      LookupUnique(table[1..], i - 1);
    }
  }

  lemma {:induction false} LookupFirst(table: Table, name: string, i: nat)
    requires i <= |table| && forall j :: 0 <= j < i ==> table[j].0 != name
    requires i < |table| ==> table[i].0 == name
    ensures Lookup(table, name) == if i < |table| then table[i].1 else []
  {
    if i > 0 {
      LookupFirst(table[1..], name, i - 1);
    }
  }

  lemma UniqueNamesAppend(table: Table, name: string, settings: seq<MixerSetting>)
    requires UniqueNames(table) && !Named(table, name)
    ensures UniqueNames(table + [(name, settings)])
  {
  }

  class AudioRoute {
    const mixer: Mixer
    const ctlType: seq<CtlType>
    const numValues: seq<nat>
    var oldValue: Values
    var newValue: Values
    var resetValue: Values
    var mixerPathSize: nat
    var mixerPath: seq<MixerPath>
    ghost var pathRepr: set<object>

    /** Enumerated controls have one value and every control has at least one. */
    ghost predicate ControlsFit() {
      && |ctlType| == |numValues|
      && (forall c :: 0 <= c < |numValues| ==> numValues[c] > 0)
      && (forall c :: 0 <= c < |numValues| && ctlType[c] == EnumCtl ==> numValues[c] == 1)
    }

    ghost predicate CacheFits()
      reads this
    {
      && ControlsFit()
      && Fits(oldValue, numValues) && Fits(newValue, numValues) && Fits(resetValue, numValues)
    }

    /** Paths, with their arrays, are distinct objects. */
    ghost predicate PathsValid()
      reads this`mixerPathSize, this`mixerPath, this`pathRepr, pathRepr
    {
      && |mixerPath| <= mixerPathSize
      && (forall i :: 0 <= i < |mixerPath| ==>
            mixerPath[i] in pathRepr && mixerPath[i].setting in pathRepr && mixerPath[i].Valid(numValues))
      && (forall i, j :: 0 <= i < j < |mixerPath| ==>
            mixerPath[i] != mixerPath[j] && mixerPath[i].setting != mixerPath[j].setting)
    }

    /** The names and settings of the first n paths. */
    ghost function PathsUpTo(n: nat): (t: Table)
      requires PathsValid() && n <= |mixerPath|
      reads this`mixerPathSize, this`mixerPath, this`pathRepr, pathRepr
      ensures |t| == n
      ensures forall i :: 0 <= i < n ==> t[i] == (mixerPath[i].name, mixerPath[i].Settings())
    {
      if n == 0 then []
      else PathsUpTo(n - 1) + [(mixerPath[n - 1].name, mixerPath[n - 1].Settings())]
    }

    ghost function Paths(): (t: Table)
      requires PathsValid()
      reads this`mixerPathSize, this`mixerPath, this`pathRepr, pathRepr
      ensures |t| == |mixerPath| && TableFits(t, numValues)
      ensures forall i :: 0 <= i < |mixerPath| ==> t[i] == (mixerPath[i].name, mixerPath[i].Settings())
    {
      PathsUpTo(|mixerPath|)
    }

    /** The cache agrees with the hardware, the paths are objects of their own and no two have one name. */
    ghost predicate Valid()
      reads this, mixer, pathRepr
    {
      && this !in pathRepr && mixer !in pathRepr
      && CacheFits() && PathsValid() && mixer.value == oldValue && UniqueNames(Paths())
    }

    /** The cache starts as a copy of the hardware; the reset values are saved later. */
    constructor (m: Mixer, types: seq<CtlType>, sizes: seq<nat>, memory: Values)
      requires |types| == |sizes| && Fits(m.value, sizes) && Fits(memory, sizes)
      requires forall c :: 0 <= c < |sizes| ==> sizes[c] > 0
      requires forall c :: 0 <= c < |sizes| && types[c] == EnumCtl ==> sizes[c] == 1
      ensures Valid() && pathRepr == {} && mixer == m && ctlType == types && numValues == sizes
      ensures newValue == m.value && Paths() == []
    {
      mixer, ctlType, numValues := m, types, sizes;
      oldValue, newValue, resetValue := m.value, m.value, memory;
      mixerPathSize, mixerPath := 0, [];
      pathRepr := {};
    }

    method PathGetByName(name: string) returns (p: MixerPath?)
      requires Valid()
      ensures p == null <==> !Named(Paths(), name)
      ensures p == null ==> Lookup(Paths(), name) == []
      ensures p != null ==> p in mixerPath && p in pathRepr && p.setting in pathRepr && p.Valid(numValues)
                            && p.Settings() == Lookup(Paths(), name) && p.name == name
    {
      for i := 0 to |mixerPath|
        invariant forall j :: 0 <= j < i ==> Paths()[j].0 != name
      {
        if mixerPath[i].name == name {
          assert Paths()[i].0 == name;
          LookupFirst(Paths(), name, i);
          return mixerPath[i];
        }
      }
      LookupFirst(Paths(), name, |mixerPath|);
      return null;
    }

    /** Puts a fresh path at the end of the table, whose room doubles when it is full. */
    method Append(p: MixerPath)
      requires Valid() && p.Valid(numValues) && p.Settings() == []
      requires p !in pathRepr && p.setting !in pathRepr
      requires !Named(Paths(), p.name)
      modifies this`mixerPathSize, this`mixerPath, this`pathRepr
      ensures Valid() && pathRepr == old(pathRepr) + {p, p.setting} && mixerPath == old(mixerPath) + [p]
      ensures Paths() == old(Paths()) + [(p.name, [])]
      ensures mixerPathSize == if old(mixerPathSize) > |old(mixerPath)| then old(mixerPathSize)
                               else if old(mixerPathSize) == 0 then INITIAL_MIXER_PATH_SIZE else 2 * old(mixerPathSize)
    {
      hide UniqueNames, DistinctControls, SettingsFit, TableFits, Fits, Named;
      ghost var before := Paths();
      UniqueNamesAppend(before, p.name, []);
      if mixerPathSize <= |mixerPath| {
        mixerPathSize := if mixerPathSize == 0 then INITIAL_MIXER_PATH_SIZE else 2 * mixerPathSize;
      }
      mixerPath := mixerPath + [p];
      pathRepr := pathRepr + {p, p.setting};
      assert Paths() == before + [(p.name, [])];
    }

    /** A new empty path, or none if the name is taken. */
    method PathCreate(name: string) returns (p: MixerPath?)
      requires Valid()
      modifies this`mixerPathSize, this`mixerPath, this`pathRepr
      ensures Valid() && fresh(pathRepr - old(pathRepr))
      ensures p == null <==> Named(old(Paths()), name)
      ensures Paths() == if p == null then old(Paths()) else old(Paths()) + [(name, [])]
      ensures mixerPath == if p == null then old(mixerPath) else old(mixerPath) + [p]
      ensures p != null ==> fresh(p) && fresh(p.setting) && p in pathRepr && p.setting in pathRepr
                            && p.Valid(numValues) && p.name == name
    {
      hide Valid, PathsValid, CacheFits, UniqueNames, TableFits, Fits, Named;
      var present := PathGetByName(name);
      if present != null {
        return null;
      }
      p := new MixerPath(name);
      Append(p);
    }

    /** After path i has grown, with its own array or a fresh one, the table is what it was but for that path. */
    twostate lemma PathGrown(i: nat)
      requires old(Valid()) && i < |old(mixerPath)| && mixerPath == old(mixerPath)
      requires var p := mixerPath[i];
               && p.Valid(numValues) && (p.setting == old(p.setting) || fresh(p.setting))
               && pathRepr == old(pathRepr) + {p.setting}
      requires unchanged(mixer, this`mixerPathSize, this`oldValue, this`newValue, this`resetValue)
      requires forall j :: 0 <= j < |mixerPath| && j != i ==> unchanged(mixerPath[j]) && unchanged(old(mixerPath[j].setting))
      ensures Valid() && Paths() == old(Paths())[i := (mixerPath[i].name, mixerPath[i].Settings())]
    {
      hide SettingsFit, DistinctControls, TableFits, Fits;
      assert PathsValid();
      forall j | 0 <= j < |mixerPath|
        ensures Paths()[j] == old(Paths())[i := (mixerPath[i].name, mixerPath[i].Settings())][j]
      {
      }
      assert Paths() == old(Paths())[i := (mixerPath[i].name, mixerPath[i].Settings())];
    }

    lemma DistinctArrays(i: nat, p: MixerPath)
      requires PathsValid() && i < |mixerPath| && p in mixerPath && p != mixerPath[i]
      ensures p.setting != mixerPath[i].setting
    {
      var j :| 0 <= j < |mixerPath| && mixerPath[j] == p;
    }

    /** path_add_value on the i-th path. */
    method AddValueTo(i: nat, v: MixerValue, memory: seq<int>) returns (r: int)
      requires Valid() && i < |mixerPath|
      requires v.ctlIndex < |numValues| && |memory| == numValues[v.ctlIndex] && -1 <= v.index
      modifies mixerPath[i], mixerPath[i].setting, this`pathRepr
      ensures Valid() && mixerPath == old(mixerPath) && fresh(pathRepr - old(pathRepr))
      ensures r == if v.index >= |memory| then -1 else 0
      ensures r == -1 ==> Paths() == old(Paths())
      ensures r == 0 ==>
                Paths() == old(Paths())[i := (old(Paths())[i].0, WithSetting(old(Paths())[i].1, v, memory))]
    {
      hide WithSetting, SettingsFit, DistinctControls, UniqueNames, TableFits, Fits;
      var p := mixerPath[i];
      r := p.AddValue(v, memory, numValues);
      pathRepr := pathRepr + {p.setting};
      PathGrown(i);
    }

    /** path_add_setting on the i-th path. */
    method AddSettingTo(i: nat, s: MixerSetting) returns (r: int)
      requires Valid() && i < |mixerPath| && s.ctlIndex < |numValues| && |s.value| == numValues[s.ctlIndex]
      modifies mixerPath[i], mixerPath[i].setting, this`pathRepr
      ensures Valid() && mixerPath == old(mixerPath) && fresh(pathRepr - old(pathRepr))
      ensures r == if Lists(old(Paths())[i].1, s.ctlIndex) then -1 else 0
      ensures Paths() == if r == 0 then old(Paths())[i := (old(Paths())[i].0, old(Paths())[i].1 + [s])] else old(Paths())
    {
      hide SettingsFit, DistinctControls, UniqueNames, TableFits, Fits, Lists;
      var p := mixerPath[i];
      r := p.AddSetting(s, numValues);
      pathRepr := pathRepr + {p.setting};
      PathGrown(i);
    }

    /** A nested path: path_add_path of the path with a name to the i-th path. */
    method AddPathTo(i: nat, name: string) returns (r: int)
      requires Valid() && i < |mixerPath| && Named(Paths(), name)
      modifies mixerPath[i], mixerPath[i].setting, this`pathRepr
      ensures Valid() && mixerPath == old(mixerPath) && fresh(pathRepr - old(pathRepr))
      ensures var own, other := old(Paths())[i].1, Lookup(old(Paths()), name);
              var k := Taken(own, other, |other|);
              && Paths() == old(Paths())[i := (old(Paths())[i].0, own + other[..k])]
              && r == (if k == |other| then 0 else -1)
    {
      hide SettingsFit, DistinctControls, UniqueNames, TableFits, Fits, Taken, Lookup, Named, ControlsFit, PathsUpTo;
      var p := mixerPath[i];
      var sub := PathGetByName(name);
      if sub != p {
        DistinctArrays(i, sub);
      }
      r := p.AddPath(sub, numValues);
      pathRepr := pathRepr + {p.setting};
      PathGrown(i);
    }

    /** audio_route_reset: every control goes back to its saved values, in the cache only. */
    method Reset()
      requires Valid()
      modifies this`newValue
      ensures Valid() && newValue == resetValue
    {
      for i := 0 to |numValues|
        invariant |newValue| == |numValues| && newValue[..i] == resetValue[..i]
        invariant Fits(newValue, numValues)
      {
        newValue := newValue[i := resetValue[i]];
      }
    }

    /** save_mixer_state: what a reset goes back to. */
    method SaveMixerState()
      requires Valid()
      modifies this`resetValue
      ensures Valid() && resetValue == newValue
    {
      for i := 0 to |numValues|
        invariant |resetValue| == |numValues| && resetValue[..i] == newValue[..i]
        invariant Fits(resetValue, numValues)
      {
        resetValue := resetValue[i := newValue[i]];
      }
    }

    /** A control outside any path: one value of it, or all when there is no id. A negative id is unsigned and too large. */
    method SetControl(c: nat, id: Option<int>, value: int)
      requires Valid() && c < |numValues|
      modifies this`newValue
      ensures Valid()
      ensures id == None ==> newValue == old(newValue)[c := AllSame(numValues[c], value)]
      ensures id.Some? && 0 <= id.value < numValues[c] ==>
                newValue == old(newValue)[c := old(newValue)[c][id.value := value]]
      ensures id.Some? && !(0 <= id.value < numValues[c]) ==> newValue == old(newValue)
    {
      if id == None {
        for i := 0 to numValues[c]
          invariant Fits(newValue, numValues)
          invariant forall j :: 0 <= j < i ==> newValue[c][j] == value
          invariant forall k :: 0 <= k < |numValues| && k != c ==> newValue[k] == old(newValue)[k]
        {
          newValue := newValue[c := newValue[c][i := value]];
        }
        assert newValue[c] == AllSame(numValues[c], value);
      } else if 0 <= id.value < numValues[c] {
        newValue := newValue[c := newValue[c][id.value := value]];
      }
    }

    /** path_apply: every setting replaces its control's new values. */
    method PathApply(p: MixerPath)
      requires CacheFits() && p.Valid(numValues)
      modifies this`newValue
      ensures CacheFits() && newValue == Overlay(old(newValue), p.Settings(), numValues)
    {
      hide DistinctControls;
      ghost var settings := p.Settings();
      assert settings[..|settings|] == settings;
      for i := 0 to p.length
        invariant SettingsFit(settings[..i], numValues)
        invariant Fits(newValue, numValues) && newValue == Overlay(old(newValue), settings[..i], numValues)
      {
        var s := p.setting[i];
        assert s == settings[i] && settings[..i + 1][..i] == settings[..i];
        newValue := newValue[s.ctlIndex := s.value];
      }
    }

    /** path_reset: every listed control gets its saved values back. */
    method PathReset(p: MixerPath)
      requires CacheFits() && p.Valid(numValues)
      modifies this`newValue
      ensures CacheFits() && newValue == Restore(old(newValue), resetValue, p.Settings(), numValues)
    {
      hide DistinctControls;
      ghost var settings := p.Settings();
      assert settings[..|settings|] == settings;
      for i := 0 to p.length
        invariant SettingsFit(settings[..i], numValues)
        invariant Fits(newValue, numValues)
        invariant newValue == Restore(old(newValue), resetValue, settings[..i], numValues)
      {
        var c := p.setting[i].ctlIndex;
        assert p.setting[i] == settings[i] && settings[..i + 1][..i] == settings[..i];
        newValue := newValue[c := resetValue[c]];
      }
    }

    ghost predicate LookupFitsHere(name: string)
      requires PathsValid()
      reads this`mixerPathSize, this`mixerPath, this`pathRepr, pathRepr
    {
      SettingsFit(Lookup(Paths(), name), numValues)
    }

    /** Applies the path with a name; -1 and no change when there is none. */
    method ApplyPath(name: string) returns (r: int)
      requires Valid()
      modifies this`newValue
      ensures Valid()
      ensures LookupFitsHere(name) && newValue == Overlay(old(newValue), Lookup(Paths(), name), numValues)
      ensures r == if Named(Paths(), name) then 0 else -1
    {
      hide UniqueNames, PathsValid, ControlsFit, DistinctControls, TableFits, Lookup, Named;
      LookupFits(Paths(), name, numValues);
      var p := PathGetByName(name);
      if p == null {
        return -1;
      }
      PathApply(p);
      return 0;
    }

    /** Resets the controls of the path with a name. */
    method ResetPath(name: string) returns (r: int)
      requires Valid()
      modifies this`newValue
      ensures Valid()
      ensures LookupFitsHere(name)
           && newValue == Restore(old(newValue), resetValue, Lookup(Paths(), name), numValues)
      ensures r == if Named(Paths(), name) then 0 else -1
    {
      hide UniqueNames, PathsValid, ControlsFit, DistinctControls, TableFits, Lookup, Named;
      LookupFits(Paths(), name, numValues);
      var p := PathGetByName(name);
      if p == null {
        return -1;
      }
      PathReset(p);
      return 0;
    }

    /** The comparison of a control's cached and new values. */
    method HasChanged(i: nat) returns (changed: bool)
      requires CacheFits() && i < |numValues|
      ensures changed <==> oldValue[i] != newValue[i]
    {
      changed := false;
      for j := 0 to numValues[i]
        invariant !changed && oldValue[i][..j] == newValue[i][..j]
      {
        if oldValue[i][j] != newValue[i][j] {
          changed := true;
          break;
        }
      }
      assert !changed ==> oldValue[i] == oldValue[i][..numValues[i]] && newValue[i] == newValue[i][..numValues[i]];
    }

    /** Stores a control's new values in the hardware and in the cache. */
    method WriteControl(i: nat)
      requires CacheFits() && i < |numValues| && mixer.value == oldValue
      modifies this`oldValue, mixer
      ensures CacheFits() && mixer.value == oldValue == old(oldValue)[i := newValue[i]]
      ensures mixer.writes == old(mixer.writes) + [i]
    {
      if ctlType[i] == EnumCtl {
        mixer.SetValue(i, 0, newValue[i][0]);
        assert mixer.value[i] == newValue[i];
      } else {
        mixer.SetArray(i, newValue[i]);
      }
      oldValue := oldValue[i := newValue[i]];
    }

    /** Writes a control if its value has changed; either way the cache then has its new values. */
    method UpdateControl(i: nat)
      requires CacheFits() && i < |numValues| && mixer.value == oldValue
      modifies this`oldValue, mixer
      ensures CacheFits() && mixer.value == oldValue == old(oldValue)[i := newValue[i]]
      ensures mixer.writes == if old(oldValue)[i] != newValue[i] then old(mixer.writes) + [i] else old(mixer.writes)
    {
      var changed := HasChanged(i);
      if changed {
        WriteControl(i);
      }
    }

    /**
     audio_route_update_mixer: the hardware ends up with the new values, and exactly the controls
     whose values differ are written, each once and in order.
     */
    method UpdateMixer()
      requires CacheFits() && mixer.value == oldValue
      modifies this`oldValue, mixer
      ensures CacheFits() && oldValue == newValue == mixer.value
      ensures mixer.writes == old(mixer.writes) + Differing(old(oldValue), newValue, |newValue|)
    {
      hide CacheFits, Differing;
      CacheLengths();
      ghost var before := oldValue;
      NoneDiffers(before, newValue);
      for i := 0 to |numValues|
        invariant CacheFits() && mixer.value == oldValue && |oldValue| == |numValues|
        invariant forall c :: 0 <= c < i ==> oldValue[c] == newValue[c]
        invariant forall c :: i <= c < |numValues| ==> oldValue[c] == before[c]
        invariant mixer.writes == old(mixer.writes) + Differing(before, newValue, i)
      {
        OneMoreDiffers(before, newValue, i);
        UpdateControl(i);
      }
    }

    /** The end of audio_route_init: initial settings go to the hardware and become what a reset goes back to. */
    method FinishInit()
      requires Valid()
      modifies this`oldValue, this`resetValue, mixer
      ensures Valid() && Paths() == old(Paths())
      ensures newValue == resetValue == mixer.value
    {
      hide PathsValid, UniqueNames, TableFits, Fits, ControlsFit;
      UpdateMixer();
      SaveMixerState();
    }

    lemma CacheLengths()
      requires CacheFits()
      ensures |oldValue| == |newValue| == |numValues|
    {
    }

    lemma NoneDiffers(a: Values, b: Values)
      ensures Differing(a, b, 0) == []
    {
    }

    lemma OneMoreDiffers(a: Values, b: Values, n: nat)
      requires n < |a| && n < |b|
      ensures Differing(a, b, n + 1) == Differing(a, b, n) + if a[n] != b[n] then [n] else []
    {
    }

    /** Updating again writes nothing. */
    method UpdateMixerTwice()
      requires CacheFits() && mixer.value == oldValue
      modifies this`oldValue, mixer
      ensures mixer.writes == old(mixer.writes) + Differing(old(oldValue), newValue, |newValue|)
    {
      UpdateMixer();
      NothingDiffers(newValue, |newValue|);
      UpdateMixer();
    }
  }

  /** The calls that build a path while the configuration is parsed. */
  datatype PathOp =
    | ValueOp(v: MixerValue, memory: seq<int>)
    | SettingOp(s: MixerSetting)
    | PathOp(sub: seq<MixerSetting>)

  ghost predicate OpFits(op: PathOp, sizes: seq<nat>) {
    match op
    case ValueOp(v, memory) => v.ctlIndex < |sizes| && 0 < sizes[v.ctlIndex] == |memory| && -1 <= v.index
    case SettingOp(s) => SettingsFit([s], sizes)
    case PathOp(sub) => SettingsFit(sub, sizes) && DistinctControls(sub)
  }

  /** What AddValue, AddSetting and AddPath make of a path's settings. */
  ghost function ApplyOp(settings: seq<MixerSetting>, op: PathOp, sizes: seq<nat>): seq<MixerSetting>
    requires SettingsFit(settings, sizes) && OpFits(op, sizes)
  {
    match op
    case ValueOp(v, memory) => if v.index >= |memory| then settings else WithSetting(settings, v, memory)
    case SettingOp(s) => if Lists(settings, s.ctlIndex) then settings else settings + [s]
    case PathOp(sub) => settings + sub[..Taken(settings, sub, |sub|)]
  }

  /** Each call keeps a path sound. */
  lemma OpKeepsPath(settings: seq<MixerSetting>, op: PathOp, sizes: seq<nat>)
    requires SettingsFit(settings, sizes) && DistinctControls(settings) && OpFits(op, sizes)
    ensures SettingsFit(ApplyOp(settings, op, sizes), sizes) && DistinctControls(ApplyOp(settings, op, sizes))
  {
    match op
    case ValueOp(v, memory) =>
      if v.index < |memory| {
        WithSettingFits(settings, v, memory, sizes);
      }
    case SettingOp(s) =>
      assert [s][0] == s;
    case PathOp(sub) =>
  }

  ghost predicate Built(settings: seq<MixerSetting>, ops: seq<PathOp>, sizes: seq<nat>)
    decreases |ops|
  {
    if ops == [] then settings == []
    else
      var n := |ops| - 1;
      exists before: seq<MixerSetting> ::
        && Built(before, ops[..n], sizes)
        && SettingsFit(before, sizes) && OpFits(ops[n], sizes)
        && settings == ApplyOp(before, ops[n], sizes)
  }

  /** Whatever calls built it, a path lists each control once with values that fit it. */
  lemma {:induction false} BuiltPathIsSound(settings: seq<MixerSetting>, ops: seq<PathOp>, sizes: seq<nat>)
    requires Built(settings, ops, sizes)
    ensures SettingsFit(settings, sizes) && DistinctControls(settings)
    decreases |ops|
  {
    if ops != [] {
      var n := |ops| - 1;
      var before: seq<MixerSetting> :|
        && Built(before, ops[..n], sizes)
        && SettingsFit(before, sizes) && OpFits(ops[n], sizes)
        && settings == ApplyOp(before, ops[n], sizes);
      BuiltPathIsSound(before, ops[..n], sizes);
      OpKeepsPath(before, ops[n], sizes);
    }
  }
}
