/**
 * The desktop front end's input list and start button (`SemiUtilsGuiApp`),
 * and the check that sends old Tk on new macOS to the web front end. The
 * widgets themselves are not part of this model: the list box mirrors
 * `input_paths`, and `running` stands for a live worker thread.
 */
module Gui {
  import opened Paths

  /**
   * `should_fallback_to_web`, with the Tk version in tenths (8.5 is 85):
   * Tk older than 8.6 on macOS 15 or later.
   */
  function ShouldFallbackToWeb(system: string, macMajor: int, tkTenths: int): bool {
    system == "Darwin" && macMajor >= 15 && tkTenths < 86
  }

  /** The four cases the test suite pins down. */
  lemma FallbackExamples()
    ensures ShouldFallbackToWeb("Darwin", 26, 85)
    ensures !ShouldFallbackToWeb("Darwin", 26, 86)
    ensures !ShouldFallbackToWeb("Darwin", 14, 85)
    ensures !ShouldFallbackToWeb("Linux", 0, 85)
  {
  }

  /** Falling back is never needed off macOS, and stays needed on newer macOS or older Tk. */
  lemma FallbackMonotone(system: string, macMajor: int, tkTenths: int, laterMac: int, olderTk: int)
    requires ShouldFallbackToWeb(system, macMajor, tkTenths)
    requires laterMac >= macMajor && olderTk <= tkTenths
    ensures system == "Darwin"
    ensures ShouldFallbackToWeb(system, laterMac, olderTk)
  {
  }

  predicate Distinct(s: seq<string>) {
    forall i, j :: 0 <= i < j < |s| ==> s[i] != s[j]
  }

  /** The list after `_add_files`: each selected path, as `Path(raw)`, appended unless already present. */
  function AddDistinct(paths: seq<string>, selected: seq<string>): seq<string>
    decreases |selected|
  {
    if |selected| == 0 then paths
    else
      var path := Normalize(selected[0]);
      AddDistinct(if path in paths then paths else paths + [path], selected[1..])
  }

  /** Existing entries keep their places; new ones only come after them. */
  lemma {:induction false} AddDistinctKeepsPrefix(paths: seq<string>, selected: seq<string>)
    ensures |AddDistinct(paths, selected)| >= |paths|
    ensures AddDistinct(paths, selected)[..|paths|] == paths
    decreases |selected|
  {
    if |selected| > 0 {
      var path := Normalize(selected[0]);
      var next := if path in paths then paths else paths + [path];
      AddDistinctKeepsPrefix(next, selected[1..]);
      assert next[..|paths|] == paths;
    }
  }

  /** Adding never creates a duplicate. */
  lemma {:induction false} AddDistinctKeepsDistinct(paths: seq<string>, selected: seq<string>)
    requires Distinct(paths)
    ensures Distinct(AddDistinct(paths, selected))
    decreases |selected|
  {
    if |selected| > 0 {
      var path := Normalize(selected[0]);
      var next := if path in paths then paths else paths + [path];
      assert Distinct(next);
      AddDistinctKeepsDistinct(next, selected[1..]);
    }
  }

  /** The list afterwards holds exactly the old entries and the selected paths. */
  lemma {:induction false} AddDistinctMembers(paths: seq<string>, selected: seq<string>, x: string)
    ensures x in AddDistinct(paths, selected) <==>
      x in paths || exists k :: 0 <= k < |selected| && Normalize(selected[k]) == x
    decreases |selected|
  {
    if |selected| > 0 {
      var path := Normalize(selected[0]);
      var next := if path in paths then paths else paths + [path];
      AddDistinctMembers(next, selected[1..], x);
      if exists k :: 0 <= k < |selected[1..]| && Normalize(selected[1..][k]) == x {
        var k :| 0 <= k < |selected[1..]| && Normalize(selected[1..][k]) == x;
        assert Normalize(selected[k + 1]) == x;
      }
      if exists k :: 0 <= k < |selected| && Normalize(selected[k]) == x {
        var k :| 0 <= k < |selected| && Normalize(selected[k]) == x;
        if k > 0 {
          assert Normalize(selected[1..][k - 1]) == x;
        }
      }
    }
  }

  /** Selecting paths that are all listed already changes nothing. */
  lemma {:induction false} AddDistinctPresent(paths: seq<string>, selected: seq<string>)
    requires forall k :: 0 <= k < |selected| ==> Normalize(selected[k]) in paths
    ensures AddDistinct(paths, selected) == paths
    decreases |selected|
  {
    if |selected| > 0 {
      assert forall k :: 0 <= k < |selected[1..]| ==> Normalize(selected[1..][k]) == Normalize(selected[k + 1]);
      AddDistinctPresent(paths, selected[1..]);
    }
  }

  /** Adding the same selection twice is the same as adding it once. */
  lemma AddDistinctIdempotent(paths: seq<string>, selected: seq<string>)
    ensures AddDistinct(AddDistinct(paths, selected), selected) == AddDistinct(paths, selected)
  {
    var once := AddDistinct(paths, selected);
    forall k | 0 <= k < |selected| ensures Normalize(selected[k]) in once {
      AddDistinctMembers(paths, selected, Normalize(selected[k]));
    }
    AddDistinctPresent(once, selected);
  }

  /** The entries of `s` (whose first entry has index `base`) whose index is not in `drop`, in order. */
  function Keep(s: seq<string>, drop: set<int>, base: int): seq<string>
    decreases |s|
  {
    if |s| == 0 then []
    else (if base in drop then [] else [s[0]]) + Keep(s[1..], drop, base + 1)
  }

  /** The list without the entries at the indices in `drop`. */
  function Without(s: seq<string>, drop: set<int>): seq<string> {
    Keep(s, drop, 0)
  }

  lemma {:induction false} KeepSplit(s: seq<string>, drop: set<int>, base: int, m: nat)
    requires m <= |s|
    ensures Keep(s, drop, base) == Keep(s[..m], drop, base) + Keep(s[m..], drop, base + m)
    decreases m
  {
    if m > 0 {
      KeepSplit(s[1..], drop, base + 1, m - 1);
      assert s[..m][1..] == s[1..][..m - 1];
      assert s[1..][m - 1..] == s[m..];
    }
  }

  lemma {:induction false} KeepNothing(s: seq<string>, drop: set<int>, base: int)
    requires forall j :: j in drop ==> j < base || j >= base + |s|
    ensures Keep(s, drop, base) == s
    decreases |s|
  {
    if |s| > 0 {
      KeepNothing(s[1..], drop, base + 1);
      assert [s[0]] + s[1..] == s;
    }
  }

  /** Only the indices of the segment matter. */
  lemma {:induction false} KeepSameDrop(s: seq<string>, drop: set<int>, drop': set<int>, base: int)
    requires forall j :: base <= j < base + |s| ==> (j in drop <==> j in drop')
    ensures Keep(s, drop, base) == Keep(s, drop', base)
    decreases |s|
  {
    if |s| > 0 {
      KeepSameDrop(s[1..], drop, drop', base + 1);
    }
  }

  /**
   * Deleting index `i` from the list without `drop`, when every index in
   * `drop` is above `i`, is the list without `drop` and `i`.
   */
  lemma DeleteBelowDropped(s: seq<string>, drop: set<int>, i: nat)
    requires i < |s|
    requires forall j :: j in drop ==> j > i
    ensures var kept := Without(s, drop);
      i < |kept| && kept[..i] + kept[i + 1..] == Without(s, drop + {i})
  {
    var rest := Keep(s[i + 1..], drop, i + 1);
    KeptAround(s, drop, i);
    KeptAround(s, drop + {i}, i);
    KeepSameDrop(s[i + 1..], drop, drop + {i}, i + 1);
    var kept := Without(s, drop);
    assert kept == s[..i] + [s[i]] + rest;
    assert Without(s, drop + {i}) == s[..i] + rest;
    assert kept[..i] == s[..i];
    assert kept[i + 1..] == rest;
  }

  /** With nothing dropped below `i`, the list without `drop` is the first `i` entries, entry `i` unless dropped, then the rest. */
  lemma KeptAround(s: seq<string>, drop: set<int>, i: nat)
    requires i < |s|
    requires forall j :: j in drop ==> j >= i
    ensures Without(s, drop) == s[..i] + (if i in drop then [] else [s[i]]) + Keep(s[i + 1..], drop, i + 1)
  {
    KeepSplit(s, drop, 0, i);
    KeepNothing(s[..i], drop, 0);
    var tail := s[i..];
    assert tail[1..] == s[i + 1..];
    assert Keep(tail, drop, i) == (if i in drop then [] else [tail[0]]) + Keep(tail[1..], drop, i + 1);
  }

  /** An entry survives exactly when its index is not dropped. */
  lemma {:induction false} KeepMembers(s: seq<string>, drop: set<int>, base: int, x: string)
    ensures x in Keep(s, drop, base) <==> exists i :: 0 <= i < |s| && base + i !in drop && s[i] == x
    decreases |s|
  {
    if |s| > 0 {
      KeepMembers(s[1..], drop, base + 1, x);
      if exists i :: 0 <= i < |s| && base + i !in drop && s[i] == x {
        var i :| 0 <= i < |s| && base + i !in drop && s[i] == x;
        if i > 0 {
          assert s[1..][i - 1] == x && (base + 1) + (i - 1) !in drop;
        }
      }
      if exists i :: 0 <= i < |s[1..]| && (base + 1) + i !in drop && s[1..][i] == x {
        var i :| 0 <= i < |s[1..]| && (base + 1) + i !in drop && s[1..][i] == x;
        assert s[i + 1] == x && base + (i + 1) !in drop;
      }
    }
  }

  /** Indices as `curselection()` reports them: ascending, each a valid row. */
  predicate Selection(indices: seq<int>, length: int) {
    && (forall k :: 0 <= k < |indices| ==> 0 <= indices[k] < length)
    && (forall k, l :: 0 <= k < l < |indices| ==> indices[k] < indices[l])
  }

  function Indices(indices: seq<int>): set<int> {
    set k | 0 <= k < |indices| :: indices[k]
  }

  class GuiApp {
    var inputPaths: seq<string>
    /** Whether a worker thread is alive. */
    var running: bool

    constructor()
      ensures inputPaths == [] && !running
    {
      inputPaths := [];
      running := false;
    }

    /** The rule `_refresh_control_state` applies to the start button. */
    predicate StartEnabled()
      reads this
    {
      |inputPaths| > 0 && !running
    }

    /** `_add_files` with the paths the file dialog returned. */
    method AddFiles(selected: seq<string>)
      modifies this
      ensures inputPaths == AddDistinct(old(inputPaths), selected)
      ensures running == old(running)
    {
      var i := 0;
      while i < |selected|
        invariant 0 <= i <= |selected|
        invariant AddDistinct(inputPaths, selected[i..]) == AddDistinct(old(inputPaths), selected)
        invariant running == old(running)
      {
        var path := Normalize(selected[i]);
        assert selected[i..][1..] == selected[i + 1..];
        if path !in inputPaths {
          inputPaths := inputPaths + [path];
        }
        i := i + 1;
      }
    }

    /**
     * `_remove_selected_input`: the selected rows are deleted from the
     * highest index down, so each index still names the row it named.
     */
    method RemoveSelected(selected: seq<int>)
      requires Selection(selected, |inputPaths|)
      modifies this
      ensures inputPaths == Without(old(inputPaths), Indices(selected))
      ensures |inputPaths| == |old(inputPaths)| - |selected|
      ensures running == old(running)
    {
      ghost var original := inputPaths;
      if |selected| == 0 {
        KeepNothing(original, Indices(selected), 0);
        return;
      }
      var k := |selected|;
      KeepNothing(original, Indices(selected[k..]), 0);
      while k > 0
        invariant 0 <= k <= |selected|
        invariant inputPaths == Without(original, Indices(selected[k..]))
        invariant |inputPaths| == |original| - (|selected| - k)
        invariant running == old(running)
      {
        k := k - 1;
        var index := selected[k];
        ghost var above := Indices(selected[k + 1..]);
        forall j | j in above ensures j > index {
          var m :| 0 <= m < |selected[k + 1..]| && selected[k + 1..][m] == j;
          assert selected[k + 1 + m] == j;
        }
        DeleteBelowDropped(original, above, index);
        assert Indices(selected[k..]) == Indices(selected[k + 1..]) + {index};
        inputPaths := inputPaths[..index] + inputPaths[index + 1..];
      }
    }

    /** `_clear_inputs`. */
    method ClearInputs()
      modifies this
      ensures inputPaths == [] && running == old(running)
      ensures !StartEnabled()
    {
      inputPaths := [];
    }

    /**
     * `_start_processing`: nothing starts while a worker runs, without
     * inputs, or when the settings do not convert (`configOk` false, the
     * error dialog); otherwise a worker starts on a copy of the list.
     */
    method StartProcessing(configOk: bool) returns (started: bool, inputs: seq<string>)
      modifies this
      ensures started <==> old(StartEnabled()) && configOk
      ensures started ==> inputs == inputPaths && running
      ensures !started ==> running == old(running)
      ensures inputPaths == old(inputPaths)
      ensures !StartEnabled()  || !started
    {
      if running || |inputPaths| == 0 || !configOk {
        return false, [];
      }
      inputs := inputPaths;
      running := true;
      started := true;
    }

    /** The worker thread ends; the buttons are refreshed on the next event. */
    method WorkerExited()
      modifies this
      ensures !running && inputPaths == old(inputPaths)
    {
      running := false;
    }
  }
}
