/** Path simplification of tp4: an index scan over a path computes a stack normal form of its components. */
module PathNormal {
  import opened Common

  const SLASH := '/'
  const BAD_ARGUMENTS := -1
  const NO_SUCH_LEVEL := -2
  const UNDERFLOW := -2

  // ---------------------------------------------------------------- components and their meaning

  /** The first slash from `i` on, or the end. */
  function SlashFrom(path: string, i: nat): (e: nat)
    requires i <= |path|
    ensures i <= e <= |path| && SLASH !in path[i..e]
    ensures e < |path| ==> path[e] == SLASH
    decreases |path| - i
  {
    if i == |path| || path[i] == SLASH then i else
      var e := SlashFrom(path, i + 1);
      assert path[i..e] == [path[i]] + path[i + 1..e];
      e
  }

  /** The components of the path from `i` on: what stands between slashes, nothing included. */
  function Components(path: string, i: nat): (r: seq<string>)
    requires i <= |path|
    decreases |path| - i
  {
    var e := SlashFrom(path, i);
    if e == |path| then [path[i..]] else [path[i..e]] + Components(path, e + 1)
  }

  predicate IsUp(c: string) {
    c == ".."
  }

  predicate IsName(c: string) {
    c != "" && c != "." && c != ".."
  }

  /** Names go on the stack, ".." takes one off, the rest is dropped. None: nothing to take off. */
  function Fold(stack: seq<string>, components: seq<string>): Option<seq<string>>
    decreases |components|
  {
    if components == [] then Some(stack)
    else if IsUp(components[0]) then
      if stack == [] then None else Fold(stack[..|stack| - 1], components[1..])
    else Fold(if IsName(components[0]) then stack + [components[0]] else stack, components[1..])
  }

  function Normal(path: string): Option<seq<string>> {
    Fold([], Components(path, 0))
  }

  function Separated(components: seq<string>): string
    requires components != []
  {
    if |components| == 1 then components[0] else components[0] + "/" + Separated(components[1..])
  }

  /** The components are the path again when they are written with slashes between them, and hold none themselves. */
  lemma {:induction false} ComponentsSeparated(path: string, i: nat)
    requires i <= |path|
    ensures Components(path, i) != [] && Separated(Components(path, i)) == path[i..]
    ensures forall k :: 0 <= k < |Components(path, i)| ==> SLASH !in Components(path, i)[k]
    decreases |path| - i
  {
    hide Separated;
    var e := SlashFrom(path, i);
    if e == |path| {
      assert path[i..e] == path[i..];
      SeparatedOne(path[i..]);
    } else {
      ComponentsSeparated(path, e + 1);
      SeparatedCons(path[i..e], Components(path, e + 1));
      RejoinedAt(path, i, e);
    }
  }

  lemma RejoinedAt(path: string, i: nat, e: nat)
    requires i <= e < |path| && path[e] == SLASH
    ensures path[i..e] + "/" + path[e + 1..] == path[i..]
  {
  }

  lemma SeparatedOne(c: string)
    ensures Separated([c]) == c
  {
  }

  lemma SeparatedCons(c: string, rest: seq<string>)
    requires rest != []
    ensures Separated([c] + rest) == c + "/" + Separated(rest)
  {
    assert ([c] + rest)[1..] == rest;
  }

  // ---------------------------------------------------------------- the scan

  /** What is still to come at index `i`, which can be one past the end. */
  function Remaining(path: string, i: nat): seq<string> {
    if i <= |path| then Components(path, i) else []
  }

  lemma {:induction false} SlashAt(path: string, i: nat, e: nat)
    requires i <= e <= |path| && SLASH !in path[i..e] && (e < |path| ==> path[e] == SLASH)
    ensures SlashFrom(path, i) == e
    decreases e - i
  {
    if i < e {
      assert path[i] == path[i..e][0];
      assert path[i + 1..e] == path[i..e][1..];
      SlashAt(path, i + 1, e);
    }
  }

  /** The first component ends at `e`. */
  lemma ComponentsStep(path: string, i: nat, e: nat)
    requires i <= e <= |path| && SLASH !in path[i..e] && (e < |path| ==> path[e] == SLASH)
    ensures Components(path, i) == [path[i..e]] + Remaining(path, e + 1)
  {
    SlashAt(path, i, e);
    assert e == |path| ==> path[i..e] == path[i..];
  }

  /** One component from `i` to `e`, whatever the scan did to find its end. */
  lemma RemainingStep(path: string, i: nat, e: nat, stack: seq<string>)
    requires i <= e <= |path| && SLASH !in path[i..e] && (e < |path| ==> path[e] == SLASH)
    ensures var c := path[i..e];
      Fold(stack, Components(path, i))
      == (if !IsUp(c) then Fold(if IsName(c) then stack + [c] else stack, Remaining(path, e + 1))
          else if stack == [] then None
          else Fold(stack[..|stack| - 1], Remaining(path, e + 1)))
  {
    hide Components;
    ComponentsStep(path, i, e);
    assert Components(path, i)[1..] == Remaining(path, e + 1);
  }

  lemma ScanSlash(path: string, i: nat, stack: seq<string>)
    requires i < |path| && path[i] == SLASH
    ensures Fold(stack, Remaining(path, i + 1)) == Fold(stack, Remaining(path, i))
  {
    RemainingStep(path, i, i, stack);
  }

  lemma ScanDot(path: string, i: nat, stack: seq<string>)
    requires i < |path| && path[i] == '.' && (i + 1 == |path| || path[i + 1] == SLASH)
    ensures Fold(stack, Remaining(path, i + 2)) == Fold(stack, Remaining(path, i))
  {
    hide Components, Fold;
    assert path[i..i + 1] == ".";
    RemainingStep(path, i, i + 1, stack);
  }

  lemma ScanUp(path: string, i: nat, stack: seq<string>)
    requires i + 1 < |path| && path[i] == path[i + 1] == '.' && (i + 2 == |path| || path[i + 2] == SLASH)
    ensures stack == [] ==> Fold(stack, Remaining(path, i)) == None
    ensures stack != [] ==> Fold(stack[..|stack| - 1], Remaining(path, i + 3)) == Fold(stack, Remaining(path, i))
  {
    hide Components, Fold;
    assert path[i..i + 2] == "..";
    RemainingStep(path, i, i + 2, stack);
  }

  /** A component that the scan does not take for "." or ".." is a name. */
  lemma ScanName(path: string, i: nat, e: nat, stack: seq<string>)
    requires i < e <= |path| && SLASH !in path[i..e] && (e < |path| ==> path[e] == SLASH)
    requires !(path[i] == '.' && (i + 1 == |path| || path[i + 1] == SLASH))
    requires !(path[i] == '.' && i + 1 < |path| && path[i + 1] == '.' && (i + 2 == |path| || path[i + 2] == SLASH))
    ensures Fold(stack + [path[i..e]], Remaining(path, e)) == Fold(stack, Remaining(path, i))
  {
    var c := path[i..e];
    assert IsName(c) by {
      assert c[0] == path[i];
      assert |c| > 1 ==> c[1] == path[i + 1];
    }
    hide Components, Fold;
    RemainingStep(path, i, e, stack);
    if e < |path| {
      RemainingStep(path, e, e, stack + [c]);
      assert path[e..e] == "";
    } else {
      EndOfScan(path, stack + [c]);
    }
  }

  ghost predicate Holds(entries: seq<Option<string>>, names: seq<string>) {
    && |names| < |entries| && entries[|names|] == None
    && forall k :: 0 <= k < |names| ==> entries[k] == Some(names[k])
  }

  /** The copy of one component into the temporary string. */
  method CopyComponent(path: string, start: nat, temp: array<char>) returns (i: nat)
    requires start < |path| && path[start] != SLASH && |path| < temp.Length
    modifies temp
    ensures start < i <= |path| && SLASH !in path[start..i] && (i < |path| ==> path[i] == SLASH)
    ensures temp[..i - start] == path[start..i]
  {
    i := start;
    var j := 0;
    while i < |path| && path[i] != SLASH
      invariant start <= i <= |path| && j == i - start
      invariant temp[..j] == path[start..i] && SLASH !in path[start..i]
      invariant j == 0 ==> path[i] != SLASH
    {
      assert path[start..i + 1] == path[start..i] + [path[i]];
      temp[j] := path[i];
      i := i + 1;
      j := j + 1;
    }
  }

  /** `get_simplified_path`: the components on the stack, then a null entry. */
  method GetSimplifiedPath(path: string) returns (status: int, stack: array<Option<string>>)
    ensures status == if Normal(path).None? then -2 else 0
    ensures fresh(stack) && stack.Length == |path| + 1
    ensures status == 0 ==> Holds(stack[..], Normal(path).value)
  {
    hide Remaining, Normal, Fold;
    stack := new Option<string>[|path| + 1](_ => Some(""));
    var temp := new char[|path| + 1];
    var depth := 0;
    var i := 0;
    ghost var names: seq<string> := [];
    StartOfScan(path);
    while i < |path|
      invariant depth <= i <= |path| + 1 && depth <= |path| && depth == |names|
      invariant forall k :: 0 <= k < depth ==> stack[k] == Some(names[k])
      invariant Fold(names, Remaining(path, i)) == Normal(path)
      decreases |path| + 1 - i
    {
      if path[i] == SLASH {
        while i < |path| && path[i] == SLASH
          invariant depth <= i <= |path|
          invariant Fold(names, Remaining(path, i)) == Normal(path)
          invariant forall k :: 0 <= k < depth ==> stack[k] == Some(names[k])
        {
          ScanSlash(path, i, names);
          i := i + 1;
        }
      } else if path[i] == '.' && (i + 1 == |path| || path[i + 1] == SLASH) {
        ScanDot(path, i, names);
        i := i + 2;
      } else if path[i] == '.' && i + 1 < |path| && path[i + 1] == '.' && (i + 2 == |path| || path[i + 2] == SLASH) {
        ScanUp(path, i, names);
        i := i + 3;
        if depth > 0 {
          depth := depth - 1;
          names := names[..depth];
        } else {
          status := UNDERFLOW;
          return;
        }
      } else {
        var end := CopyComponent(path, i, temp);
        ScanName(path, i, end, names);
        stack[depth] := Some(temp[..end - i]);
        depth := depth + 1;
        names := names + [path[i..end]];
        i := end;
      }
    }
    EndOfScan(path, names);
    stack[depth] := None;
    status := 0;
  }

  lemma StartOfScan(path: string)
    ensures Fold([], Remaining(path, 0)) == Normal(path)
  {
  }

  /** The end of the path and one past it mean the same. */
  lemma EndOfScan(path: string, stack: seq<string>)
    ensures Fold(stack, Remaining(path, |path|)) == Some(stack)
    ensures Fold(stack, Remaining(path, |path| + 1)) == Some(stack)
  {
  }

  // ---------------------------------------------------------------- what the normal form is

  /** Names less "..". */
  function Balance(components: seq<string>): int {
    if components == [] then 0
    else
      var c := components[|components| - 1];
      Balance(components[..|components| - 1]) + if IsName(c) then 1 else if IsUp(c) then -1 else 0
  }

  lemma {:induction false} FoldConcat(stack: seq<string>, a: seq<string>, b: seq<string>)
    ensures Fold(stack, a + b) == match Fold(stack, a) case None => None case Some(s) => Fold(s, b)
    decreases |a|
  {
    if a == [] {
      assert a + b == b;
    } else {
      assert (a + b)[1..] == a[1..] + b;
      if IsUp(a[0]) {
        if stack != [] {
          FoldConcat(stack[..|stack| - 1], a[1..], b);
        }
      } else {
        FoldConcat(if IsName(a[0]) then stack + [a[0]] else stack, a[1..], b);
      }
    }
  }

  lemma FoldLast(components: seq<string>)
    requires components != []
    ensures var c := components[|components| - 1];
      Fold([], components) ==
      match Fold([], components[..|components| - 1])
      case None => None
      case Some(s) =>
        if IsUp(c) then (if s == [] then None else Some(s[..|s| - 1]))
        else Some(if IsName(c) then s + [c] else s)
  {
    var n := |components| - 1;
    FoldConcat([], components[..n], components[n..]);
    assert components[..n] + components[n..] == components;
  }

  ghost predicate PrefixUnderflows(components: seq<string>) {
    exists k :: 0 <= k <= |components| && Balance(components[..k]) < 0
  }

  /** Simplification fails exactly when some prefix of the path has more ".." than names; otherwise the depth of
      the result is the number of names less the number of "..". */
  lemma {:induction false} FailsIff(components: seq<string>)
    ensures Fold([], components).None? <==> PrefixUnderflows(components)
    ensures Fold([], components).Some? ==> |Fold([], components).value| == Balance(components)
  {
    if components == [] {
      assert Balance(components[..0]) == 0;
    } else {
      var before := components[..|components| - 1];
      FailsIff(before);
      FoldLast(components);
      PrefixesSnoc(components);
      hide PrefixUnderflows, Fold;
    }
  }

  lemma PrefixesSnoc(components: seq<string>)
    requires components != []
    ensures PrefixUnderflows(components)
       <==> PrefixUnderflows(components[..|components| - 1]) || Balance(components) < 0
  {
    hide Balance;
    var n := |components| - 1;
    var before := components[..n];
    assert forall k :: 0 <= k <= n ==> before[..k] == components[..k];
    assert components[..n + 1] == components;
  }

  // ---------------------------------------------------------------- which names are left

  /** A name is left when what follows it never has more ".." than names. */
  ghost predicate Survives(components: seq<string>, k: nat)
    requires k < |components|
  {
    IsName(components[k]) && forall m :: k < m <= |components| ==> Since(components, k, m) >= 0
  }

  /** The balance of what stands between the name at `k` and `m`. */
  function Since(components: seq<string>, k: nat, m: nat): int
    requires k < m <= |components|
  {
    Balance(components[k + 1..m])
  }

  /** The surviving names are at these indices, the last of them with nothing left after it, and so on. */
  ghost predicate Survivors(components: seq<string>, at: seq<nat>) {
    && (forall i :: 0 <= i < |at| ==> at[i] < |components| && Survives(components, at[i]))
    && (forall i, j :: 0 <= i < j < |at| ==> at[i] < at[j])
    && (forall k: nat :: k < |components| && Survives(components, k) ==> k in at)
  }

  ghost predicate Levels(components: seq<string>, at: seq<nat>) {
    forall i :: 0 <= i < |at| ==>
      at[i] < |components| && Since(components, at[i], |components|) == |at| - 1 - i
  }

  lemma BalanceSnoc(a: seq<string>, c: string)
    ensures Balance(a + [c]) == Balance(a) + if IsName(c) then 1 else if IsUp(c) then -1 else 0
  {
    assert (a + [c])[..|a|] == a;
  }

  /** One more component and the name at `k`. */
  lemma SurvivesSnoc(before: seq<string>, c: string, k: nat)
    requires k < |before|
    ensures Since(before + [c], k, |before| + 1)
         == Since(before, k, |before|) + if IsName(c) then 1 else if IsUp(c) then -1 else 0
    ensures Survives(before + [c], k) <==> Survives(before, k) && Since(before + [c], k, |before| + 1) >= 0
  {
    hide Balance;
    var after := before + [c];
    var n := |before|;
    assert after[k + 1..n + 1] == before[k + 1..n] + [c];
    BalanceSnoc(before[k + 1..n], c);
    forall m | k < m <= n
      ensures Since(after, k, m) == Since(before, k, m)
    {
      assert after[k + 1..m] == before[k + 1..m];
    }
  }

  /** The result is the sequence of surviving names. */
  lemma {:induction false} ResultIsSurvivors(components: seq<string>) returns (at: seq<nat>)
    requires Fold([], components).Some?
    ensures Survivors(components, at) && Levels(components, at)
    ensures var stack := Fold([], components).value;
      |stack| == |at| && forall i :: 0 <= i < |at| ==> stack[i] == components[at[i]]
  {
    if components == [] {
      at := [];
    } else {
      var n := |components| - 1;
      var before, c := components[..n], components[n];
      assert components == before + [c];
      FoldLast(components);
      var was := ResultIsSurvivors(before);
      at := NextSurvivors(before, c, was);
    }
  }

  function Next(before: seq<string>, c: string, at: seq<nat>): seq<nat>
    requires IsUp(c) ==> at != []
  {
    if IsUp(c) then at[..|at| - 1] else if IsName(c) then at + [|before|] else at
  }

  lemma NextSurvivors(before: seq<string>, c: string, was: seq<nat>) returns (at: seq<nat>)
    requires Survivors(before, was) && Levels(before, was)
    requires IsUp(c) ==> was != []
    ensures at == Next(before, c, was)
    ensures Survivors(before + [c], at) && Levels(before + [c], at)
  {
    hide Since, Survives;
    at := Next(before, c, was);
    var after := before + [c];
    forall i | 0 <= i < |at|
      ensures at[i] < |after| && Survives(after, at[i]) && Since(after, at[i], |after|) == |at| - 1 - i
    {
      NextKeeps(before, c, was, i);
    }
    forall k: nat | k < |after| && Survives(after, k)
      ensures k in at
    {
      NextMisses(before, c, was, k);
    }
  }

  lemma NextKeeps(before: seq<string>, c: string, was: seq<nat>, i: nat)
    requires Survivors(before, was) && Levels(before, was)
    requires IsUp(c) ==> was != []
    requires i < |Next(before, c, was)|
    ensures var at, after := Next(before, c, was), before + [c];
      at[i] < |after| && Survives(after, at[i]) && Since(after, at[i], |after|) == |at| - 1 - i
  {
    hide Since, Survives;
    var at := Next(before, c, was);
    if i < |was| {
      assert at[i] == was[i];
      SurvivesSnoc(before, c, was[i]);
    } else {
      assert at[i] == |before|;
      SurvivesAtEnd(before, c);
    }
  }

  lemma SurvivesAtEnd(before: seq<string>, c: string)
    ensures Since(before + [c], |before|, |before| + 1) == 0
    ensures Survives(before + [c], |before|) <==> IsName(c)
  {
  }

  lemma NextMisses(before: seq<string>, c: string, was: seq<nat>, k: nat)
    requires Survivors(before, was) && Levels(before, was)
    requires IsUp(c) ==> was != []
    requires k <= |before| && Survives(before + [c], k)
    ensures k in Next(before, c, was)
  {
    hide Since, Survives;
    var at := Next(before, c, was);
    if k < |before| {
      SurvivesSnoc(before, c, k);
      var i :| 0 <= i < |was| && was[i] == k;
      assert i < |at| && at[i] == k;
    } else {
      SurvivesAtEnd(before, c);
      assert at[|was|] == k;
    }
  }

  // ---------------------------------------------------------------- rejoining

  ghost predicate Clean(names: seq<string>) {
    forall i :: 0 <= i < |names| ==> IsName(names[i]) && SLASH !in names[i]
  }

  function Join(names: seq<string>): string {
    if names == [] then "" else "/" + names[0] + Join(names[1..])
  }

  lemma {:induction false} FoldIsClean(stack: seq<string>, components: seq<string>)
    requires Clean(stack) && Fold(stack, components).Some?
    requires forall k :: 0 <= k < |components| ==> SLASH !in components[k]
    ensures Clean(Fold(stack, components).value)
    decreases |components|
  {
    if components != [] {
      if IsUp(components[0]) {
        FoldIsClean(stack[..|stack| - 1], components[1..]);
      } else {
        FoldIsClean(if IsName(components[0]) then stack + [components[0]] else stack, components[1..]);
      }
    }
  }

  /** What follows `head` in a longer text has the components it has alone. */
  lemma {:induction false} ComponentsShift(head: string, path: string, i: nat)
    requires i <= |path|
    ensures Components(head + path, |head| + i) == Components(path, i)
    decreases |path| - i
  {
    hide Components;
    var text, e := head + path, SlashFrom(path, i);
    assert text[|head| + i..|head| + e] == path[i..e];
    ComponentsStep(path, i, e);
    ComponentsStep(text, |head| + i, |head| + e);
    if e < |path| {
      ComponentsShift(head, path, e + 1);
    }
  }

  lemma {:induction false} ComponentsJoined(names: seq<string>)
    requires Clean(names)
    ensures Components(Join(names), 0) == [""] + names
  {
    hide Components;
    var text := Join(names);
    ComponentsStep(text, 0, 0);
    if names == [] {
      assert Components(text, 0) == [""];
    } else {
      var head, rest := "/" + names[0], Join(names[1..]);
      assert text == head + rest;
      assert text[1..|head|] == names[0];
      assert rest != "" ==> text[|head|] == rest[0] == SLASH;
      ComponentsStep(text, 1, |head|);
      ComponentsJoined(names[1..]);
      ComponentsShift(head, rest, 0);
      ComponentsStep(text, |head|, |head|);
      assert Components(text, |head|) == [""] + Remaining(text, |head| + 1);
      assert Remaining(text, |head| + 1) == Components(text, |head|)[1..] == names[1..];
    }
  }

  lemma {:induction false} FoldNames(stack: seq<string>, names: seq<string>)
    requires Clean(names)
    ensures Fold(stack, names) == Some(stack + names)
    decreases |names|
  {
    if names == [] {
      assert stack + names == stack;
    } else {
      FoldNames(stack + [names[0]], names[1..]);
      assert stack + [names[0]] + names[1..] == stack + names;
    }
  }

  /** Joined names come back as they are. */
  lemma JoinRoundTrip(names: seq<string>)
    requires Clean(names)
    ensures Normal(Join(names)) == Some(names)
  {
    ComponentsJoined(names);
    FoldConcat([], [""], names);
    assert [""][1..] == [] && [] + names == names;
    FoldNames([], names);
  }

  /** The result of a simplification, joined again, simplifies to itself; every result is clean and every clean
      stack is a result. */
  lemma Idempotent(path: string)
    requires Normal(path).Some?
    ensures Clean(Normal(path).value)
    ensures Normal(Join(Normal(path).value)) == Normal(path)
  {
    ComponentsSeparated(path, 0);
    FoldIsClean([], Components(path, 0));
    JoinRoundTrip(Normal(path).value);
  }

  /** Two paths in a row: the second is walked from where the first leads. */
  lemma {:induction false} Relative(path: string, i: nat, next: string)
    requires i <= |path|
    ensures Components(path + "/" + next, i) == Components(path, i) + Components(next, 0)
    decreases |path| - i
  {
    hide Components;
    var text, e := path + "/" + next, SlashFrom(path, i);
    assert text[i..e] == path[i..e];
    ComponentsStep(text, i, e);
    ComponentsStep(path, i, e);
    if e == |path| {
      ComponentsShift(path + "/", next, 0);
    } else {
      Relative(path, e + 1, next);
    }
  }

  lemma Composes(path: string, next: string)
    ensures Normal(path + "/" + next)
         == match Normal(path) case None => None case Some(stack) => Fold(stack, Components(next, 0))
  {
    Relative(path, 0, next);
    FoldConcat([], Components(path, 0), Components(next, 0));
  }

  /** Where one component leads from a stack of names. */
  function Leads(from: Option<seq<string>>, c: string): Option<seq<string>> {
    match from
    case None => None
    case Some(stack) =>
      if c == "" || c == "." then from
      else if c != ".." then Some(stack + [c])
      else if stack == [] then None
      else Some(stack[..|stack| - 1])
  }

  /** A path is walked component by component: nothing and "." stay, ".." goes back, anything else goes on. With the
      path of one component this determines where every path leads, see `OnlyNormal`. */
  lemma LastComponent(path: string, c: string)
    requires '/' !in c
    ensures Normal(c) == Leads(Some([]), c)
    ensures Normal(path + "/" + c) == Leads(Normal(path), c)
  {
    Composes(path, c);
    assert c[0..|c|] == c;
    ComponentsStep(c, 0, |c|);
    assert Components(c, 0) == [c];
    hide Components;
    if Normal(path).Some? {
      FoldOne(Normal(path).value, c);
    }
    FoldOne([], c);
  }

  lemma {:induction false} LastSlash(path: string) returns (k: nat)
    requires '/' in path
    ensures k < |path| && path[k] == '/' && '/' !in path[k + 1..]
  {
    k := |path| - 1;
    if path[k] != '/' {
      assert path == path[..k] + [path[k]];
      k := LastSlash(path[..k]);
      assert path[k + 1..] == path[..|path| - 1][k + 1..] + [path[|path| - 1]];
    }
  }

  /** Whatever leads like this, component by component, is the normal form. */
  lemma {:induction false} OnlyNormal(f: string -> Option<seq<string>>, path: string)
    requires forall c: string :: '/' !in c ==> f(c) == Leads(Some([]), c)
    requires forall p: string, c: string :: '/' !in c ==> f(p + "/" + c) == Leads(f(p), c)
    ensures f(path) == Normal(path)
    decreases |path|
  {
    hide Normal, Leads;
    if '/' in path {
      var k := LastSlash(path);
      var p, c := path[..k], path[k + 1..];
      assert path == p + "/" + c;
      OnlyNormal(f, p);
      LastComponent(p, c);
    } else {
      LastComponent("", path);
    }
  }

  lemma FoldOne(stack: seq<string>, c: string)
    ensures Fold(stack, [c]) == Leads(Some(stack), c)
  {
    assert [c][1..] == [];
  }

  /** A slash in front makes no difference. */
  lemma LeadingSlashOptional(path: string)
    ensures Normal("/" + path) == Normal(path)
  {
    Composes("", path);
    assert "" + "/" + path == "/" + path;
    EndOfScan("", []);
  }

  // ---------------------------------------------------------------- one level of a path

  const SMALL_LETTERS := "abcdefghijklmnopqrstuvwxyz"
  const CAPITALS := "ABCDEFGHIJKLMNOPQRSTUVWXYZ"

  /** `d` is the capital at the place of the small letter `c` in the alphabet; any other character is its own. */
  ghost predicate IsCapitalOf(d: char, c: char) {
    if c in SMALL_LETTERS then exists k :: 0 <= k < 26 && SMALL_LETTERS[k] == c && CAPITALS[k] == d else d == c
  }

  function Upper(c: char): char {
    if 'a' <= c <= 'z' then c - 32 as char else c
  }

  lemma LettersInOrder(k: nat)
    requires k < 26
    ensures SMALL_LETTERS[k] as int == 97 + k && CAPITALS[k] as int == 65 + k
  {
  }

  lemma UpperIsCapital(c: char)
    ensures IsCapitalOf(Upper(c), c) && Upper(c) !in SMALL_LETTERS
  {
    if 'a' <= c <= 'z' {
      LettersInOrder(c as int - 97);
      assert SMALL_LETTERS[c as int - 97] == c;
    }
    forall k | 0 <= k < 26 ensures 'a' <= SMALL_LETTERS[k] <= 'z' {
      LettersInOrder(k);
    }
  }

  /** `break_up_path`. */
  method BreakUpPath(path: string, level: nat) returns (code: int, output: string)
    requires level < 256
    ensures Normal(path).None? ==> code == -1
    ensures Normal(path).Some? ==> code == if level < |Normal(path).value| then 0 else -2
    ensures code == 0 ==> |output| == |Normal(path).value[level]|
    ensures code == 0 ==> forall i :: 0 <= i < |output| ==> IsCapitalOf(output[i], Normal(path).value[level][i])
    ensures code == 0 ==> forall c :: c in output ==> c !in SMALL_LETTERS
  {
    hide Normal, IsCapitalOf;
    output := "";
    var status, stack := GetSimplifiedPath(path);
    if status == UNDERFLOW {
      return BAD_ARGUMENTS, "";
    }
    ghost var names := Normal(path).value;
    assert forall k :: 0 <= k < |names| ==> stack[k] == stack[..][k] == Some(names[k]);
    assert stack[|names|] == stack[..][|names|] == None;
    var length := 0;
    while stack[length].Some?
      invariant length <= |names|
      decreases |names| - length
    {
      length := length + 1;
    }
    if level >= length {
      return NO_SUCH_LEVEL, "";
    }
    var found := stack[level].value;
    var buffer := new char[|found|](i requires 0 <= i < |found| => found[i]);
    for i := 0 to |found|
      invariant forall k :: 0 <= k < i ==> buffer[k] == Upper(found[k])
      invariant forall k :: i <= k < |found| ==> buffer[k] == found[k]
    {
      if 'a' <= buffer[i] <= 'z' {
        buffer[i] := buffer[i] - 32 as char;
      }
    }
    code, output := 0, buffer[..];
    forall i | 0 <= i < |found| ensures IsCapitalOf(output[i], found[i]) && output[i] !in SMALL_LETTERS {
      UpperIsCapital(found[i]);
    }
  }
}
