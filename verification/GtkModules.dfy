/** The rebuilding of GTK_MODULES for accessibility (chooser/chooser-main.c). */
module GtkModules {

  import opened Basics
  import opened Strings

  const GAIL := "gail"
  const ATK_BRIDGE := "atk-bridge"

  function Reversed(s: seq<string>): (r: seq<string>)
    ensures |r| == |s|
    ensures forall i :: 0 <= i < |s| ==> r[i] == s[|s| - 1 - i]
  {
    if s == [] then [] else Reversed(s[1..]) + [s[0]]
  }

  function Modules(was: Option<string>): seq<string> {
    if was.Some? then Split(was.value, ':') else []
  }

  /** The modules with those of the two that were missing after them. */
  function WithBridge(modules: seq<string>): seq<string> {
    modules + (if GAIL in modules then [] else [GAIL]) + (if ATK_BRIDGE in modules then [] else [ATK_BRIDGE])
  }

  /** Prepends every module to a list, which turns their order round. */
  method Collect(modules: seq<string>) returns (list: seq<string>, n: nat, gail: bool, bridge: bool)
    ensures list == Reversed(modules) && n == |modules|
    ensures gail == (GAIL in modules) && bridge == (ATK_BRIDGE in modules)
  {
    list, n, gail, bridge := [], 0, false, false;
    while n < |modules|
      invariant n <= |modules| && |list| == n
      invariant forall i :: 0 <= i < n ==> list[i] == modules[n - 1 - i]
      invariant gail == (GAIL in modules[..n]) && bridge == (ATK_BRIDGE in modules[..n])
    {
      if modules[n] == GAIL {
        gail := true;
      } else if modules[n] == ATK_BRIDGE {
        bridge := true;
      }
      list := [modules[n]] + list;
      n := n + 1;
    }
    assert modules[..n] == modules;
  }

  /** Fills the vector from its last slot to its first, the NULL included. */
  method FillBackwards(list: seq<string>) returns (vector: array<Option<string>>)
    ensures fresh(vector) && vector.Length == |list| + 1
    ensures vector[|list|] == None
    ensures forall i :: 0 <= i < |list| ==> vector[i] == Some(Reversed(list)[i])
  {
    var n: int := |list|;
    vector := new Option<string>[n + 1](_ => None);
    vector[n] := None;
    n := n - 1;
    var l := 0;
    while l < |list|
      invariant l <= |list| && n == |list| - 1 - l
      invariant forall i :: n < i < |list| ==> vector[i] == Some(list[|list| - 1 - i])
      invariant vector[|list|] == None
    {
      vector[n] := Some(list[l]);
      n := n - 1;
      l := l + 1;
    }
  }

  method JoinVector(vector: array<Option<string>>, ghost list: seq<string>) returns (s: string)
    requires vector.Length == |list| + 1 && vector[|list|] == None
    requires forall i :: 0 <= i < |list| ==> vector[i] == Some(list[i])
    ensures s == Join(list, ':')
  {
    var pieces := [];
    var i := 0;
    while vector[i].Some?
      invariant i <= |list| && pieces == list[..i]
      decreases |list| - i
    {
      pieces := pieces + [vector[i].value];
      i := i + 1;
    }
    assert pieces == list;
    s := Join(pieces, ':');
  }

  /** The new value of GTK_MODULES. */
  method SetGtkModules(was: Option<string>) returns (value: string)
    ensures Modules(Some(value)) == WithBridge(Modules(was))
    ensures value == Rebuilt(was)
  {
    var modules := Modules(was);
    var list, n, gail, bridge := Collect(modules);
    if !gail {
      list := [GAIL] + list;
    }
    if !bridge {
      list := [ATK_BRIDGE] + list;
    }
    var vector := FillBackwards(list);
    Prepended(modules);
    assert Reversed(list) == WithBridge(modules);
    value := JoinVector(vector, Reversed(list));
    RebuiltModules(was);
  }

  /** The list read backwards, with what was prepended to it at the end. */
  lemma Prepended(modules: seq<string>)
    ensures var g := if GAIL in modules then Reversed(modules) else [GAIL] + Reversed(modules);
            Reversed(if ATK_BRIDGE in modules then g else [ATK_BRIDGE] + g) == WithBridge(modules)
  {
    hide Reversed;
    var g := if GAIL in modules then Reversed(modules) else [GAIL] + Reversed(modules);
    var list := if ATK_BRIDGE in modules then g else [ATK_BRIDGE] + g;
    var all := WithBridge(modules);
    assert |all| == |list|;
    forall i | 0 <= i < |all| ensures all[i] == list[|list| - 1 - i] {
    }
  }

  function Rebuilt(was: Option<string>): string {
    Join(WithBridge(Modules(was)), ':')
  }

  /**
   Nothing is lost, moved or doubled: split again, the value has the modules
   there were, in order, and then those that were missing.
   */
  lemma RebuiltModules(was: Option<string>)
    ensures Modules(Some(Rebuilt(was))) == WithBridge(Modules(was))
  {
    var all := WithBridge(Modules(was));
    NoColons(was);
    assert GAIL in all && ATK_BRIDGE in all;
    assert all != [""];
    SplitOfJoinIff(all, ':');
  }

  lemma NoColons(was: Option<string>)
    ensures forall i :: 0 <= i < |WithBridge(Modules(was))| ==> ':' !in WithBridge(Modules(was))[i]
  {
    var modules := Modules(was);
    assert ':' !in GAIL && ':' !in ATK_BRIDGE;
    assert forall m :: m in modules ==> ':' !in m;
    assert forall m :: m in WithBridge(modules) ==> ':' !in m;
  }

  /** Doing it twice is doing it once. */
  lemma RebuildingTwice(was: Option<string>)
    ensures Rebuilt(Some(Rebuilt(was))) == Rebuilt(was)
  {
    RebuiltModules(was);
    hide Modules, Join;
    var all := WithBridge(Modules(was));
    assert GAIL in all && ATK_BRIDGE in all;
    assert WithBridge(all) == all;
  }

  /** A value is left as it is exactly when it names both already. */
  lemma LeftAloneIff(was: string)
    ensures Rebuilt(Some(was)) == was <==> GAIL in Split(was, ':') && ATK_BRIDGE in Split(was, ':')
  {
    var all := WithBridge(Split(was, ':'));
    JoinOfSplit(was, ':');
    if GAIL in Split(was, ':') && ATK_BRIDGE in Split(was, ':') {
      assert all == Split(was, ':');
    }
    RebuiltModules(Some(was));
    assert GAIL in all && ATK_BRIDGE in all;
  }

  /**
   The modules stay in front as they were; behind them come those of the two
   that were not among them, each once, gail first.
   */
  lemma MissingModulesFollow(modules: seq<string>)
    ensures
      var all := WithBridge(modules);
      && modules <= all
      && (forall m :: m in all[|modules|..] <==> (m == "gail" || m == "atk-bridge") && m !in modules)
      && |all| == |modules| + (if "gail" in modules then 0 else 1) + (if "atk-bridge" in modules then 0 else 1)
      && ("gail" !in modules ==> all[|modules|] == "gail")
  {
    var all := WithBridge(modules);
    var missing := (if GAIL in modules then [] else [GAIL]) + (if ATK_BRIDGE in modules then [] else [ATK_BRIDGE]);
    assert all == modules + missing;
    assert all[|modules|..] == missing;
  }
}
