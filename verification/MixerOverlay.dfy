/**
 Control values and what applying a path means for them: each setting replaces one control's
 values. These are the specification functions that the mixer's loops are proved against.
 */
module MixerOverlay {
  /** One list of values per control. */
  type Values = seq<seq<int>>

  datatype MixerSetting = MixerSetting(ctlIndex: nat, value: seq<int>)

  ghost predicate Fits(values: Values, sizes: seq<nat>) {
    |values| == |sizes| && forall c :: 0 <= c < |sizes| ==> |values[c]| == sizes[c]
  }

  ghost predicate SettingsFit(settings: seq<MixerSetting>, sizes: seq<nat>) {
    forall i :: 0 <= i < |settings| ==>
      settings[i].ctlIndex < |sizes| && |settings[i].value| == sizes[settings[i].ctlIndex]
  }

  /** No control occurs twice. */
  ghost predicate DistinctControls(settings: seq<MixerSetting>) {
    forall i, j :: 0 <= i < j < |settings| ==> settings[i].ctlIndex != settings[j].ctlIndex
  }

  predicate Lists(settings: seq<MixerSetting>, c: nat) {
    exists i :: 0 <= i < |settings| && settings[i].ctlIndex == c
  }

  /** Where a control's setting is, or the number of settings when it has none. */
  function PlaceOf(settings: seq<MixerSetting>, c: nat): (k: nat)
    ensures k <= |settings| && (k < |settings| <==> Lists(settings, c))
    ensures k < |settings| ==> settings[k].ctlIndex == c
    ensures forall i :: 0 <= i < k ==> settings[i].ctlIndex != c
  {
    if settings == [] || settings[0].ctlIndex == c then 0
    else
      assert Lists(settings, c) ==> Lists(settings[1..], c) by {
        if Lists(settings, c) {
          var i :| 0 <= i < |settings| && settings[i].ctlIndex == c;
          assert settings[1..][i - 1] == settings[i];
        }
      }
      1 + PlaceOf(settings[1..], c)
  }

  /** Applying the settings one after the other. */
  ghost function Overlay(values: Values, settings: seq<MixerSetting>, sizes: seq<nat>): (r: Values)
    requires Fits(values, sizes) && SettingsFit(settings, sizes)
    ensures Fits(r, sizes)
  {
    if settings == [] then values
    else
      var n := |settings| - 1;
      Overlay(values, settings[..n], sizes)[settings[n].ctlIndex := settings[n].value]
  }

  /** Restoring every listed control, one after the other. */
  ghost function Restore(values: Values, saved: Values, settings: seq<MixerSetting>, sizes: seq<nat>): (r: Values)
    requires Fits(values, sizes) && Fits(saved, sizes) && SettingsFit(settings, sizes)
    ensures Fits(r, sizes)
  {
    if settings == [] then values
    else
      var n := |settings| - 1;
      var c := settings[n].ctlIndex;
      Restore(values, saved, settings[..n], sizes)[c := saved[c]]
  }

  /** A listed control gets its setting's values, any other control keeps its own. */
  lemma {:induction false} OverlayListed(values: Values, settings: seq<MixerSetting>, sizes: seq<nat>, i: nat)
    requires Fits(values, sizes) && SettingsFit(settings, sizes) && DistinctControls(settings) && i < |settings|
    ensures Overlay(values, settings, sizes)[settings[i].ctlIndex] == settings[i].value
  {
    var n := |settings| - 1;
    if i < n {
      OverlayListed(values, settings[..n], sizes, i);
    }
  }

  lemma {:induction false} OverlayUnlisted(values: Values, settings: seq<MixerSetting>, sizes: seq<nat>, c: nat)
    requires Fits(values, sizes) && SettingsFit(settings, sizes) && c < |sizes| && !Lists(settings, c)
    ensures Overlay(values, settings, sizes)[c] == values[c]
  {
    if settings != [] {
      var n := |settings| - 1;
      assert forall i :: 0 <= i < n ==> settings[..n][i] == settings[i];
      OverlayUnlisted(values, settings[..n], sizes, c);
    }
  }

  /** Two settings lists with the same settings list the same controls, each once. */
  lemma SameSettings(s: seq<MixerSetting>, t: seq<MixerSetting>)
    requires multiset(s) == multiset(t) && DistinctControls(s)
    ensures DistinctControls(t)
    ensures forall i :: 0 <= i < |t| ==> t[i] in s
    ensures forall i :: 0 <= i < |s| ==> s[i] in t
  {
    forall i | 0 <= i < |t|
      ensures t[i] in s
    {
      assert t[i] in multiset(t);
    }
    forall i | 0 <= i < |s|
      ensures s[i] in t
    {
      assert s[i] in multiset(s);
    }
    forall i, j | 0 <= i < j < |t|
      ensures t[i].ctlIndex != t[j].ctlIndex
    {
      if t[i].ctlIndex == t[j].ctlIndex {
        var a :| 0 <= a < |s| && s[a] == t[i];
        var b :| 0 <= b < |s| && s[b] == t[j];
        assert a == b;
        OccursTwice(t, i, j);
        OccursOnce(s, a);
        assert false;
      }
    }
  }

  lemma OccursTwice(t: seq<MixerSetting>, i: nat, j: nat)
    requires i < j < |t| && t[i] == t[j]
    ensures multiset(t)[t[i]] >= 2
  {
    assert t == t[..i] + [t[i]] + t[i + 1..j] + [t[j]] + t[j + 1..];
  }

  lemma OccursOnce(s: seq<MixerSetting>, a: nat)
    requires a < |s| && DistinctControls(s)
    ensures multiset(s)[s[a]] == 1
  {
    assert s == s[..a] + [s[a]] + s[a + 1..];
    assert s[a] !in s[..a] && s[a] !in s[a + 1..];
  }

  /** Applying a path does not depend on the order of its settings. */
  lemma OverlayAnyOrder(values: Values, s: seq<MixerSetting>, t: seq<MixerSetting>, sizes: seq<nat>)
    requires Fits(values, sizes) && SettingsFit(s, sizes) && DistinctControls(s) && multiset(s) == multiset(t)
    ensures SettingsFit(t, sizes) && Overlay(values, s, sizes) == Overlay(values, t, sizes)
  {
    SameSettings(s, t);
    forall i | 0 <= i < |t|
      ensures t[i].ctlIndex < |sizes| && |t[i].value| == sizes[t[i].ctlIndex]
    {
      assert t[i] in s;
    }
    forall c | 0 <= c < |sizes|
      ensures Overlay(values, s, sizes)[c] == Overlay(values, t, sizes)[c]
    {
      if Lists(s, c) {
        var i :| 0 <= i < |s| && s[i].ctlIndex == c;
        var j :| 0 <= j < |t| && t[j] == s[i];
        OverlayListed(values, s, sizes, i);
        OverlayListed(values, t, sizes, j);
      } else {
        assert !Lists(t, c);
        OverlayUnlisted(values, s, sizes, c);
        OverlayUnlisted(values, t, sizes, c);
      }
    }
  }

  /** Restoring sets exactly the listed controls. */
  lemma {:induction false} RestoreAt(values: Values, saved: Values, settings: seq<MixerSetting>, sizes: seq<nat>, c: nat)
    requires Fits(values, sizes) && Fits(saved, sizes) && SettingsFit(settings, sizes) && c < |sizes|
    ensures Restore(values, saved, settings, sizes)[c] == if Lists(settings, c) then saved[c] else values[c]
  {
    if settings != [] {
      var n := |settings| - 1;
      RestoreAt(values, saved, settings[..n], sizes, c);
      assert forall i :: 0 <= i < n ==> settings[..n][i] == settings[i];
      assert Lists(settings, c) <==> Lists(settings[..n], c) || settings[n].ctlIndex == c;
    }
  }

  /** From the saved state, applying a path and then resetting it changes nothing. */
  lemma ApplyThenReset(saved: Values, settings: seq<MixerSetting>, sizes: seq<nat>)
    requires Fits(saved, sizes) && SettingsFit(settings, sizes)
    ensures Restore(Overlay(saved, settings, sizes), saved, settings, sizes) == saved
  {
    var applied := Overlay(saved, settings, sizes);
    forall c | 0 <= c < |sizes|
      ensures Restore(applied, saved, settings, sizes)[c] == saved[c]
    {
      RestoreAt(applied, saved, settings, sizes, c);
      if !Lists(settings, c) {
        OverlayUnlisted(saved, settings, sizes, c);
      }
    }
  }

  /** The controls below n whose values differ, in order. */
  function Differing(a: Values, b: Values, n: nat): seq<nat>
    requires n <= |a| && n <= |b|
  {
    if n == 0 then []
    else Differing(a, b, n - 1) + if a[n - 1] != b[n - 1] then [n - 1] else []
  }

  /** It lists the controls that differ, all of them and nothing else. */
  lemma {:induction false} DifferingExactly(a: Values, b: Values, n: nat, c: nat)
    requires n <= |a| && n <= |b|
    ensures c in Differing(a, b, n) <==> c < n && a[c] != b[c]
  {
    if n > 0 {
      DifferingExactly(a, b, n - 1, c);
    }
  }

  /** Each control is listed at most once. */
  lemma {:induction false} DifferingAscends(a: Values, b: Values, n: nat, i: nat, j: nat)
    requires n <= |a| && n <= |b| && i < j < |Differing(a, b, n)|
    ensures Differing(a, b, n)[i] < Differing(a, b, n)[j]
  {
    var r := Differing(a, b, n - 1);
    if j < |r| {
      DifferingAscends(a, b, n - 1, i, j);
    } else {
      DifferingExactly(a, b, n - 1, r[i]);
    }
  }

  lemma {:induction false} NothingDiffers(a: Values, n: nat)
    requires n <= |a|
    ensures Differing(a, a, n) == []
  {
    if n > 0 {
      NothingDiffers(a, n - 1);
    }
  }
}
