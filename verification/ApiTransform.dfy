/** transformForApiResponse: the data with bigints printed, and the printed paths of the bigints. */
module ApiTransform {
  import opened Wrappers
  import opened Text
  import opened Values
  import Seqs
  import BigIntUtils

  datatype ApiResponse = ApiResponse(data: Value, bigIntFields: Option<seq<string>>)

  /** The path text one level down; at the root the text is empty and no dot is written. */
  function Extend(path: string, step: Step): string {
    match step
    case Key(k) => if path != "" then path + "." + k else k
    case Index(i) => if path != "" then path + "[" + NatToString(i) + "]" else "[" + NatToString(i) + "]"
  }

  function Print(path: string, steps: seq<Step>): string
    decreases steps
  {
    if steps == [] then path else Print(Extend(path, steps[0]), steps[1..])
  }

  // ---------- the source's recursion ----------

  /** The paths collectBigIntFields pushes while it walks v, in order. */
  function Paths(v: Value, path: string): seq<string>
    decreases v, 1
  {
    match v
    case Big(_) => if path != "" then [path] else []
    case Arr(items) => ItemPaths(items, path)
    case Obj(fields) => FieldPaths(fields, path)
    case _ => []
  }

  function ItemPaths(items: seq<Value>, path: string): seq<string>
    decreases items, 0
  {
    if items == [] then [] else
    var n := |items| - 1;
    ItemPaths(items[..n], path) + Paths(items[n], Extend(path, Index(n)))
  }

  function FieldPaths(fields: seq<Field>, path: string): seq<string>
    decreases fields, 0
  {
    if fields == [] then [] else
    var n := |fields| - 1;
    FieldPaths(fields[..n], path) + Paths(fields[n].value, Extend(path, Key(fields[n].key)))
  }

  lemma ItemPathsStep(items: seq<Value>, i: nat, path: string)
    requires i < |items|
    ensures ItemPaths(items[..i + 1], path) == ItemPaths(items[..i], path) + Paths(items[i], Extend(path, Index(i)))
  {
    assert items[..i + 1][..i] == items[..i];
  }

  lemma FieldPathsStep(fields: seq<Field>, i: nat, path: string)
    requires i < |fields|
    ensures FieldPaths(fields[..i + 1], path) ==
            FieldPaths(fields[..i], path) + Paths(fields[i].value, Extend(path, Key(fields[i].key)))
    ensures BigIntUtils.StringifyFields(fields[..i + 1]) ==
            Put(BigIntUtils.StringifyFields(fields[..i]), fields[i].key, BigIntUtils.Stringify(fields[i].value))
  {
    assert fields[..i + 1][..i] == fields[..i];
  }

  /** mapped holds the first n items, converted. */
  predicate Mapped(mapped: seq<Value>, items: seq<Value>, n: nat) {
    |mapped| == n <= |items| && forall j :: 0 <= j < n ==> mapped[j] == BigIntUtils.Stringify(items[j])
  }

  lemma MappedMore(mapped: seq<Value>, items: seq<Value>, n: nat, item: Value)
    requires n < |items| && Mapped(mapped, items, n) && item == BigIntUtils.Stringify(items[n])
    ensures Mapped(mapped + [item], items, n + 1)
  {
  }

  class Collector {
    var bigIntFields: seq<string>

    constructor ()
      ensures bigIntFields == []
    {
      bigIntFields := [];
    }

    method CollectBigIntFields(current: Value, path: string) returns (r: Value)
      modifies this
      ensures r == BigIntUtils.Stringify(current)
      ensures bigIntFields == old(bigIntFields) + Paths(current, path)
      decreases current, 1
    {
      match current
      case Big(i) =>
        if path != "" {
          bigIntFields := bigIntFields + [path];
        }
        r := Str(IntToString(i));
      case Arr(items) =>
        var mapped := CollectItems(items, path);
        r := Arr(mapped);
      case Obj(fields) =>
        var transformed := CollectFields(fields, path);
        r := Obj(transformed);
      case _ => r := current;
    }

    method CollectItems(items: seq<Value>, path: string) returns (mapped: seq<Value>)
      modifies this
      ensures Mapped(mapped, items, |items|)
      ensures bigIntFields == old(bigIntFields) + ItemPaths(items, path)
      decreases items, 0
    {
      mapped := [];
      for i := 0 to |items|
        invariant Mapped(mapped, items, i)
        invariant bigIntFields == old(bigIntFields) + ItemPaths(items[..i], path)
      {
        var itemPath := Extend(path, Index(i));
        var item := CollectBigIntFields(items[i], itemPath);
        MappedMore(mapped, items, i, item);
        mapped := mapped + [item];
        ItemPathsStep(items, i, path);
        Seqs.Assoc(old(bigIntFields), ItemPaths(items[..i], path), Paths(items[i], itemPath));
      }
      assert items[..|items|] == items;
    }

    method CollectFields(fields: seq<Field>, path: string) returns (transformed: seq<Field>)
      modifies this
      ensures transformed == BigIntUtils.StringifyFields(fields)
      ensures bigIntFields == old(bigIntFields) + FieldPaths(fields, path)
      decreases fields, 0
    {
      transformed := [];
      for i := 0 to |fields|
        invariant transformed == BigIntUtils.StringifyFields(fields[..i])
        invariant bigIntFields == old(bigIntFields) + FieldPaths(fields[..i], path)
      {
        var fieldPath := Extend(path, Key(fields[i].key));
        var value := CollectBigIntFields(fields[i].value, fieldPath);
        transformed := Put(transformed, fields[i].key, value);
        FieldPathsStep(fields, i, path);
        Seqs.Assoc(old(bigIntFields), FieldPaths(fields[..i], path), Paths(fields[i].value, fieldPath));
      }
      assert fields[..|fields|] == fields;
    }
  }

  function Transform(v: Value): ApiResponse {
    ApiResponse(BigIntUtils.Stringify(v), if Paths(v, "") != [] then Some(Paths(v, "")) else None)
  }

  method TransformForApiResponse(obj: Value) returns (r: ApiResponse)
    ensures r == Transform(obj)
    ensures WellFormed(obj) ==> BigIntUtils.PrintedForm(obj, r.data)
  {
    var collector := new Collector();
    var data := collector.CollectBigIntFields(obj, "");
    assert [] + Paths(obj, "") == Paths(obj, "");
    r := ApiResponse(data, if |collector.bigIntFields| > 0 then Some(collector.bigIntFields) else None);
    if WellFormed(obj) {
      BigIntUtils.StringifyPrints(obj);
    }
  }

  // ---------- positions in order, an independent reading of the path list ----------

  ghost predicate BigAt(v: Value, s: seq<Step>) {
    At(v, s).Some? && At(v, s).value.Big?
  }

  /** The place of a child among its siblings, as Object.entries and map visit them. */
  function ChildRank(v: Value, step: Step): nat {
    match (step, v)
    case (Index(i), _) => i
    case (Key(k), Obj(fields)) => IndexOf(fields, k)
    case _ => 0
  }

  /** s is visited before t, and neither lies inside the other. */
  predicate VisitedBefore(v: Value, s: seq<Step>, t: seq<Step>)
    decreases s
  {
    s != [] && t != [] && At(v, s[..1]).Some? &&
    if s[0] == t[0] then VisitedBefore(At(v, s[..1]).value, s[1..], t[1..])
    else ChildRank(v, s[0]) < ChildRank(v, t[0])
  }

  /** Keys the printed paths keep apart: non-empty, without `.` and `[`, and not `__proto__`. */
  predicate PlainKey(k: string) {
    k != "" && k != PROTO && FreeOf(k, {'.', '['})
  }

  predicate PlainKeys(v: Value) {
    match v
    case Arr(items) => forall i :: 0 <= i < |items| ==> PlainKeys(items[i])
    case Obj(fields) =>
      DistinctKeys(fields) &&
      forall i :: 0 <= i < |fields| ==> PlainKey(fields[i].key) && PlainKeys(fields[i].value)
    case _ => true
  }

  lemma {:induction false} AtChild(v: Value, steps: seq<Step>, step: Step)
    ensures At(v, steps + [step]) ==
            if At(v, steps).Some? then At(At(v, steps).value, [step]) else None
  {
    if steps == [] {
      assert steps + [step] == [step];
    } else {
      assert (steps + [step])[1..] == steps[1..] + [step];
      match (steps[0], v)
      case (Index(i), Arr(items)) =>
        if i < |items| { AtChild(items[i], steps[1..], step); }
      case (Key(k), Obj(fields)) =>
        var i := IndexOf(fields, k);
        if i < |fields| { AtChild(fields[i].value, steps[1..], step); }
      case _ =>
    }
  }

  lemma {:induction false} PrintChild(path: string, steps: seq<Step>, step: Step)
    ensures Print(path, steps + [step]) == Extend(Print(path, steps), step)
    decreases steps
  {
    if steps == [] {
      assert steps + [step] == [step];
      assert [step][1..] == [];
    } else {
      assert (steps + [step])[1..] == steps[1..] + [step];
      PrintChild(Extend(path, steps[0]), steps[1..], step);
    }
  }

  function Suffix(step: Step): string {
    match step case Key(k) => "." + k case Index(i) => "[" + NatToString(i) + "]"
  }

  lemma ExtendSuffix(path: string, step: Step, rest: string)
    requires path != ""
    ensures Extend(path, step) == path + Suffix(step)
    ensures Suffix(step) + rest != "" && CutAt(Suffix(step) + rest, {'.', '['})
  {
  }

  lemma {:induction false} PrintRest(path: string, steps: seq<Step>) returns (rest: string)
    requires path != ""
    ensures Print(path, steps) == path + rest && CutAt(rest, {'.', '['})
    ensures rest == "" <==> steps == []
    decreases steps
  {
    if steps == [] {
      rest := "";
    } else {
      ExtendSuffix(path, steps[0], "");
      var more := PrintRest(Extend(path, steps[0]), steps[1..]);
      ExtendSuffix(path, steps[0], more);
      rest := Suffix(steps[0]) + more;
      Seqs.Assoc(path, Suffix(steps[0]), more);
    }
  }

  lemma KeysApart(path: string, a: string, b: string, restA: string, restB: string)
    requires PlainKey(a) && PlainKey(b)
    requires CutAt(restA, {'.', '['}) && CutAt(restB, {'.', '['})
    requires Extend(path, Key(a)) + restA == Extend(path, Key(b)) + restB
    ensures a == b
  {
    var p := if path != "" then path + "." else "";
    assert Extend(path, Key(a)) + restA == p + (a + restA);
    assert Extend(path, Key(b)) + restB == p + (b + restB);
    DropPrefix(p, a + restA, b + restB);
    CutUnique(a, restA, b, restB, {'.', '['});
  }

  lemma IndexText(path: string, i: nat, rest: string)
    ensures Extend(path, Index(i)) + rest == (path + "[") + (NatToString(i) + ("]" + rest))
  {
    if path == "" {
      assert path + "[" == "[";
    }
  }

  lemma IndicesApart(path: string, a: nat, b: nat, restA: string, restB: string)
    requires Extend(path, Index(a)) + restA == Extend(path, Index(b)) + restB
    ensures a == b
  {
    var x, y := "]" + restA, "]" + restB;
    IndexText(path, a, restA);
    IndexText(path, b, restB);
    DropPrefix(path + "[", NatToString(a) + x, NatToString(b) + y);
    NumeralFreeOf(a, {']'});
    NumeralFreeOf(b, {']'});
    CutUnique(NatToString(a), x, NatToString(b), y, {']'});
    NatToStringInjective(a, b);
  }

  lemma ChildFacts(v: Value, steps: seq<Step>)
    requires PlainKeys(v) && steps != [] && At(v, steps).Some?
    ensures At(v, [steps[0]]).Some?
    ensures var child := At(v, [steps[0]]).value;
            PlainKeys(child) && At(child, steps[1..]) == At(v, steps) && child < v
    ensures steps[0].Key? ==> v.Obj? && PlainKey(steps[0].k)
    ensures steps[0].Index? ==> v.Arr?
    ensures forall path :: Extend(path, steps[0]) != ""
  {
    assert [steps[0]][1..] == [];
  }

  /** Two positions of the same tree never print the same path. */
  lemma {:induction false} PrintInjective(v: Value, path: string, s: seq<Step>, t: seq<Step>)
    requires PlainKeys(v)
    requires At(v, s).Some? && At(v, t).Some?
    requires Print(path, s) == Print(path, t)
    ensures s == t
    decreases |s|
  {
    if s != [] {
      ChildFacts(v, s);
      var restS := PrintRest(Extend(path, s[0]), s[1..]);
      if t != [] {
        ChildFacts(v, t);
        var restT := PrintRest(Extend(path, t[0]), t[1..]);
        if s[0].Key? {
          KeysApart(path, s[0].k, t[0].k, restS, restT);
        } else {
          IndicesApart(path, s[0].i, t[0].i, restS, restT);
        }
        PrintInjective(At(v, [s[0]]).value, Extend(path, s[0]), s[1..], t[1..]);
        assert s == [s[0]] + s[1..] && t == [t[0]] + t[1..];
      }
    } else if t != [] {
      ChildFacts(v, t);
      var restT := PrintRest(Extend(path, t[0]), t[1..]);
    }
  }

  // ---------- what the path list is ----------

  function Prefixed(step: Step, tails: seq<seq<Step>>): seq<seq<Step>> {
    seq(|tails|, i requires 0 <= i < |tails| => [step] + tails[i])
  }

  /** The positions of the bigints of v, in the order the walk meets them. */
  function BigLeaves(v: Value): seq<seq<Step>>
    decreases v, 1
  {
    match v
    case Big(_) => [[]]
    case Arr(items) => ItemLeaves(items)
    case Obj(fields) => FieldLeaves(fields)
    case _ => []
  }

  function ItemLeaves(items: seq<Value>): seq<seq<Step>>
    decreases items, 0
  {
    if items == [] then [] else
    var n := |items| - 1;
    ItemLeaves(items[..n]) + Prefixed(Index(n), BigLeaves(items[n]))
  }

  function FieldLeaves(fields: seq<Field>): seq<seq<Step>>
    decreases fields, 0
  {
    if fields == [] then [] else
    var n := |fields| - 1;
    FieldLeaves(fields[..n]) + Prefixed(Key(fields[n].key), BigLeaves(fields[n].value))
  }

  function PrintAll(path: string, leaves: seq<seq<Step>>): seq<string> {
    seq(|leaves|, i requires 0 <= i < |leaves| => Print(path, leaves[i]))
  }

  lemma PrintPrefixed(path: string, step: Step, tails: seq<seq<Step>>)
    ensures PrintAll(path, Prefixed(step, tails)) == PrintAll(Extend(path, step), tails)
  {
    forall i | 0 <= i < |tails|
      ensures Print(path, [step] + tails[i]) == Print(Extend(path, step), tails[i])
    {
      assert ([step] + tails[i])[1..] == tails[i];
    }
  }

  /** The walk pushes no empty path. */
  function Shown(paths: seq<string>): seq<string> {
    if paths == [] then [] else
    var n := |paths| - 1;
    Shown(paths[..n]) + if paths[n] != "" then [paths[n]] else []
  }

  lemma {:induction false} ShownConcat(a: seq<string>, b: seq<string>)
    ensures Shown(a + b) == Shown(a) + Shown(b)
  {
    if b == [] {
      assert a + b == a;
    } else {
      var n := |b| - 1;
      ShownConcat(a, b[..n]);
      assert (a + b)[..|a| + n] == a + b[..n] && (a + b)[|a| + n] == b[n];
      Seqs.Assoc(Shown(a), Shown(b[..n]), if b[n] != "" then [b[n]] else []);
    }
  }

  lemma {:induction false} ShownMember(paths: seq<string>, p: string)
    ensures p in Shown(paths) <==> p != "" && p in paths
  {
    if paths != [] {
      var n := |paths| - 1;
      ShownMember(paths[..n], p);
      assert paths == paths[..n] + [paths[n]];
    }
  }

  lemma {:induction false} ShownAll(paths: seq<string>)
    requires "" !in paths
    ensures Shown(paths) == paths
  {
    if paths != [] {
      var n := |paths| - 1;
      assert paths == paths[..n] + [paths[n]];
      ShownAll(paths[..n]);
    }
  }

  /** For every value: the pushed paths are the printed positions of the bigints, in traversal order,
      but for empty ones. */
  lemma {:induction false} PathsArePrintedLeaves(v: Value, path: string)
    ensures Paths(v, path) == Shown(PrintAll(path, BigLeaves(v)))
    decreases v, 1
  {
    match v
    case Big(_) => assert PrintAll(path, [[]]) == [path] && [path][..0] == [];
    case Arr(items) => ItemPathsArePrintedLeaves(items, path);
    case Obj(fields) => FieldPathsArePrintedLeaves(fields, path);
    case _ =>
  }

  lemma PrintAllConcat(path: string, a: seq<seq<Step>>, b: seq<seq<Step>>)
    ensures PrintAll(path, a + b) == PrintAll(path, a) + PrintAll(path, b)
  {
  }

  lemma OneMoreChild(path: string, before: seq<seq<Step>>, step: Step, below: seq<seq<Step>>)
    ensures Shown(PrintAll(path, before + Prefixed(step, below))) ==
            Shown(PrintAll(path, before)) + Shown(PrintAll(Extend(path, step), below))
  {
    PrintPrefixed(path, step, below);
    PrintAllConcat(path, before, Prefixed(step, below));
    ShownConcat(PrintAll(path, before), PrintAll(path, Prefixed(step, below)));
  }

  lemma {:induction false} ItemPathsArePrintedLeaves(items: seq<Value>, path: string)
    ensures ItemPaths(items, path) == Shown(PrintAll(path, ItemLeaves(items)))
    decreases items, 0
  {
    if items != [] {
      var n := |items| - 1;
      ItemPathsArePrintedLeaves(items[..n], path);
      PathsArePrintedLeaves(items[n], Extend(path, Index(n)));
      OneMoreChild(path, ItemLeaves(items[..n]), Index(n), BigLeaves(items[n]));
    }
  }

  lemma {:induction false} FieldPathsArePrintedLeaves(fields: seq<Field>, path: string)
    ensures FieldPaths(fields, path) == Shown(PrintAll(path, FieldLeaves(fields)))
    decreases fields, 0
  {
    if fields != [] {
      var n := |fields| - 1;
      FieldPathsArePrintedLeaves(fields[..n], path);
      PathsArePrintedLeaves(fields[n].value, Extend(path, Key(fields[n].key)));
      OneMoreChild(path, FieldLeaves(fields[..n]), Key(fields[n].key), BigLeaves(fields[n].value));
    }
  }

  lemma PrefixedMember(step: Step, tails: seq<seq<Step>>, s: seq<Step>)
    ensures s in Prefixed(step, tails) <==> s != [] && s[0] == step && s[1..] in tails
  {
    var all := Prefixed(step, tails);
    if s in all {
      var i :| 0 <= i < |all| && all[i] == s;
      assert s[1..] == tails[i];
    }
    if s != [] && s[0] == step && s[1..] in tails {
      var i :| 0 <= i < |tails| && tails[i] == s[1..];
      assert s == [step] + s[1..] == all[i];
    }
  }

  lemma {:induction false} ItemLeafMember(items: seq<Value>, s: seq<Step>)
    ensures s in ItemLeaves(items) <==>
            s != [] && s[0].Index? && s[0].i < |items| && s[1..] in BigLeaves(items[s[0].i])
  {
    if items != [] {
      var n := |items| - 1;
      ItemLeafMember(items[..n], s);
      PrefixedMember(Index(n), BigLeaves(items[n]), s);
    }
  }

  lemma {:induction false} IndexOfFront(fields: seq<Field>, k: string)
    requires fields != []
    ensures var n := |fields| - 1;
            IndexOf(fields[..n], k) == if IndexOf(fields, k) < n then IndexOf(fields, k) else n
  {
    var n := |fields| - 1;
    var front := fields[..n];
    var i, j := IndexOf(fields, k), IndexOf(front, k);
    assert forall m :: 0 <= m < n ==> front[m] == fields[m];
    if i < n {
      assert front[i].key == k;
    }
    if j < n {
      assert fields[j].key == k;
    }
  }

  lemma FrontOrLast(fields: seq<Field>, k: string)
    requires fields != [] && DistinctKeys(fields)
    ensures var n, i := |fields| - 1, IndexOf(fields, k);
            && (i < n ==> IndexOf(fields[..n], k) == i && fields[..n][i] == fields[i] && k != fields[n].key)
            && (i >= n ==> IndexOf(fields[..n], k) == n && (i == n <==> k == fields[n].key))
  {
    IndexOfFront(fields, k);
    var n, i := |fields| - 1, IndexOf(fields, k);
    if i < n {
      assert fields[i].key != fields[n].key;
    }
  }

  lemma {:induction false} FieldLeafMember(fields: seq<Field>, s: seq<Step>)
    requires DistinctKeys(fields)
    ensures s in FieldLeaves(fields) <==>
            s != [] && s[0].Key? && IndexOf(fields, s[0].k) < |fields| &&
            s[1..] in BigLeaves(fields[IndexOf(fields, s[0].k)].value)
  {
    if fields != [] {
      var n := |fields| - 1;
      FieldLeafMember(fields[..n], s);
      PrefixedMember(Key(fields[n].key), BigLeaves(fields[n].value), s);
      if s != [] && s[0].Key? {
        FrontOrLast(fields, s[0].k);
      }
    }
  }

  /** The listed positions are the positions of bigints: all of them and nothing else. */
  lemma {:induction false} LeavesAreTheBigs(v: Value, s: seq<Step>)
    requires WellFormed(v)
    ensures s in BigLeaves(v) <==> BigAt(v, s)
    decreases v, 1
  {
    match v
    case Arr(items) =>
      ItemLeafMember(items, s);
      if s != [] && s[0].Index? && s[0].i < |items| {
        LeavesAreTheBigs(items[s[0].i], s[1..]);
      }
    case Obj(fields) =>
      FieldLeafMember(fields, s);
      if s != [] && s[0].Key? && IndexOf(fields, s[0].k) < |fields| {
        LeavesAreTheBigs(fields[IndexOf(fields, s[0].k)].value, s[1..]);
      }
    case _ =>
  }

  /** Two leaves of an array come from children in order, or from one child in its own order. */
  lemma {:induction false} ItemLeafBlocks(items: seq<Value>, i: nat, j: nat) returns (a: nat, b: nat)
    requires i < j < |ItemLeaves(items)|
    ensures var s, t := ItemLeaves(items)[i], ItemLeaves(items)[j];
            s != [] && t != [] && s[0].Index? && t[0].Index? && s[0].i <= t[0].i < |items| &&
            (s[0] == t[0] ==>
              var below := BigLeaves(items[s[0].i]);
              a < b < |below| && below[a] == s[1..] && below[b] == t[1..])
  {
    var n := |items| - 1;
    var front := ItemLeaves(items[..n]);
    a, b := 0, 0;
    if j < |front| {
      a, b := ItemLeafBlocks(items[..n], i, j);
    } else {
      var below := BigLeaves(items[n]);
      assert ItemLeaves(items)[j] == [Index(n)] + below[j - |front|];
      if i < |front| {
        assert ItemLeaves(items)[i] == front[i] && front[i] in front;
        ItemLeafMember(items[..n], front[i]);
      } else {
        assert ItemLeaves(items)[i] == [Index(n)] + below[i - |front|];
        a, b := i - |front|, j - |front|;
      }
    }
  }

  lemma {:induction false} FieldLeafBlocks(fields: seq<Field>, i: nat, j: nat) returns (p: nat, q: nat, a: nat, b: nat)
    requires i < j < |FieldLeaves(fields)|
    requires DistinctKeys(fields)
    ensures var s, t := FieldLeaves(fields)[i], FieldLeaves(fields)[j];
            s != [] && t != [] && p <= q < |fields| && s[0] == Key(fields[p].key) && t[0] == Key(fields[q].key) &&
            (p == q ==>
              var below := BigLeaves(fields[p].value);
              a < b < |below| && below[a] == s[1..] && below[b] == t[1..])
  {
    var n := |fields| - 1;
    var front := FieldLeaves(fields[..n]);
    a, b := 0, 0;
    if j < |front| {
      p, q, a, b := FieldLeafBlocks(fields[..n], i, j);
    } else {
      var below := BigLeaves(fields[n].value);
      q := n;
      assert FieldLeaves(fields)[j] == [Key(fields[n].key)] + below[j - |front|];
      if i < |front| {
        var s := front[i];
        assert FieldLeaves(fields)[i] == s && s in front;
        FieldLeafMember(fields[..n], s);
        p := IndexOf(fields[..n], s[0].k);
      } else {
        assert FieldLeaves(fields)[i] == [Key(fields[n].key)] + below[i - |front|];
        p, a, b := n, i - |front|, j - |front|;
      }
    }
  }

  /** The list follows the traversal, so it also names no position twice. */
  lemma {:induction false} LeavesInOrder(v: Value, i: nat, j: nat)
    requires WellFormed(v)
    requires i < j < |BigLeaves(v)|
    ensures VisitedBefore(v, BigLeaves(v)[i], BigLeaves(v)[j])
    decreases v
  {
    var s, t := BigLeaves(v)[i], BigLeaves(v)[j];
    match v
    case Arr(items) =>
      var a, b := ItemLeafBlocks(items, i, j);
      assert s[..1] == [s[0]] && [s[0]][1..] == [];
      if s[0] == t[0] {
        LeavesInOrder(items[s[0].i], a, b);
      }
    case Obj(fields) =>
      var p, q, a, b := FieldLeafBlocks(fields, i, j);
      assert s[..1] == [s[0]] && [s[0]][1..] == [];
      OwnIndex(fields, p);
      OwnIndex(fields, q);
      if p == q {
        LeavesInOrder(fields[p].value, a, b);
      } else {
        assert fields[p].key != fields[q].key;
      }
    case _ =>
  }

  lemma {:induction false} VisitedBeforeDiffers(v: Value, s: seq<Step>, t: seq<Step>)
    requires VisitedBefore(v, s, t)
    ensures s != t
    decreases s
  {
    if s[0] == t[0] {
      VisitedBeforeDiffers(At(v, s[..1]).value, s[1..], t[1..]);
    }
  }

  /** A path is listed exactly when it is not empty and some bigint prints it. */
  lemma ListedIff(v: Value, p: string)
    requires WellFormed(v)
    ensures p in Paths(v, "") <==> p != "" && exists t :: BigAt(v, t) && Print("", t) == p
  {
    var leaves := BigLeaves(v);
    PathsArePrintedLeaves(v, "");
    ShownMember(PrintAll("", leaves), p);
    if p in PrintAll("", leaves) {
      var i :| 0 <= i < |leaves| && Print("", leaves[i]) == p;
      assert leaves[i] in leaves;
      LeavesAreTheBigs(v, leaves[i]);
    }
    if t :| BigAt(v, t) && Print("", t) == p {
      LeavesAreTheBigs(v, t);
      var i :| 0 <= i < |leaves| && leaves[i] == t;
      assert PrintAll("", leaves)[i] == p;
    }
  }

  lemma {:induction false} PlainIsWellFormed(v: Value)
    requires PlainKeys(v)
    ensures WellFormed(v)
  {
    match v
    case Arr(items) => forall i | 0 <= i < |items| ensures WellFormed(items[i]) { PlainIsWellFormed(items[i]); }
    case Obj(fields) =>
      forall i | 0 <= i < |fields| ensures WellFormed(fields[i].value) { PlainIsWellFormed(fields[i].value); }
    case _ =>
  }

  /** Below the root, plain keys print no empty path. */
  lemma PlainPrints(v: Value, s: seq<Step>)
    requires PlainKeys(v) && s != [] && At(v, s).Some?
    ensures Print("", s) != ""
  {
    ChildFacts(v, s);
    var rest := PrintRest(Extend("", s[0]), s[1..]);
  }

  /** `bigIntFields`: exactly the paths of the bigints, in traversal order, no path twice. */
  lemma BigIntFieldsExact(v: Value)
    requires PlainKeys(v) && !v.Big?
    ensures Paths(v, "") == PrintAll("", BigLeaves(v))
    ensures forall s :: s in BigLeaves(v) <==> BigAt(v, s)
    ensures forall i, j :: 0 <= i < j < |BigLeaves(v)| ==> VisitedBefore(v, BigLeaves(v)[i], BigLeaves(v)[j])
    ensures forall i, j :: 0 <= i < j < |Paths(v, "")| ==> Paths(v, "")[i] != Paths(v, "")[j]
  {
    var leaves := BigLeaves(v);
    PlainIsWellFormed(v);
    forall s ensures s in leaves <==> BigAt(v, s) {
      LeavesAreTheBigs(v, s);
    }
    PathsArePrintedLeaves(v, "");
    forall i | 0 <= i < |leaves| ensures Print("", leaves[i]) != "" {
      assert leaves[i] in leaves;
      PlainPrints(v, leaves[i]);
    }
    ShownAll(PrintAll("", leaves));
    forall i, j | 0 <= i < j < |leaves|
      ensures VisitedBefore(v, leaves[i], leaves[j]) && Print("", leaves[i]) != Print("", leaves[j])
    {
      LeavesInOrder(v, i, j);
      VisitedBeforeDiffers(v, leaves[i], leaves[j]);
      assert leaves[i] in leaves && leaves[j] in leaves;
      if Print("", leaves[i]) == Print("", leaves[j]) {
        PrintInjective(v, "", leaves[i], leaves[j]);
      }
    }
  }

  lemma {:induction false} NoLeavesIffNoBig(v: Value)
    ensures BigLeaves(v) == [] <==> !HasBig(v)
    decreases v, 1
  {
    match v
    case Arr(items) => NoItemLeaves(items);
    case Obj(fields) => NoFieldLeaves(fields);
    case _ =>
  }

  lemma {:induction false} HasBigIff(v: Value)
    requires WellFormed(v)
    ensures HasBig(v) <==> exists s :: BigAt(v, s)
  {
    NoLeavesIffNoBig(v);
    if BigLeaves(v) != [] {
      assert BigLeaves(v)[0] in BigLeaves(v);
      LeavesAreTheBigs(v, BigLeaves(v)[0]);
    }
    if s :| BigAt(v, s) {
      LeavesAreTheBigs(v, s);
    }
  }

  /** The list is left out exactly when no bigint prints a path. So it tells whether there is a bigint,
      unless there are some and all of them sit where the path is empty. */
  lemma ListAbsentIffNoBig(v: Value)
    requires WellFormed(v)
    ensures Transform(v).bigIntFields.None? <==> forall s :: BigAt(v, s) ==> Print("", s) == ""
    ensures (Transform(v).bigIntFields.None? <==> !HasBig(v)) <==>
            !(HasBig(v) && forall s :: BigAt(v, s) ==> Print("", s) == "")
  {
    HasBigIff(v);
    forall s | BigAt(v, s) ensures Print("", s) in Paths(v, "") <==> Print("", s) != "" {
      ListedIff(v, Print("", s));
    }
    if Paths(v, "") != [] {
      assert Paths(v, "")[0] in Paths(v, "");
      ListedIff(v, Paths(v, "")[0]);
    }
  }

  lemma {:induction false} NoItemLeaves(items: seq<Value>)
    ensures ItemLeaves(items) == [] <==> forall i :: 0 <= i < |items| ==> !HasBig(items[i])
    decreases items, 0
  {
    if items != [] {
      var n := |items| - 1;
      NoItemLeaves(items[..n]);
      NoLeavesIffNoBig(items[n]);
      assert forall i :: 0 <= i < n ==> items[..n][i] == items[i];
      assert |Prefixed(Index(n), BigLeaves(items[n]))| == |BigLeaves(items[n])|;
    }
  }

  lemma {:induction false} NoFieldLeaves(fields: seq<Field>)
    ensures FieldLeaves(fields) == [] <==> forall i :: 0 <= i < |fields| ==> !HasBig(fields[i].value)
    decreases fields, 0
  {
    if fields != [] {
      var n := |fields| - 1;
      NoFieldLeaves(fields[..n]);
      NoLeavesIffNoBig(fields[n].value);
      assert forall i :: 0 <= i < n ==> fields[..n][i] == fields[i];
      assert |Prefixed(Key(fields[n].key), BigLeaves(fields[n].value))| == |BigLeaves(fields[n].value)|;
    }
  }

  // ---------- reading a response back ----------

  /** A client's restore: read as bigints exactly the texts that sit at a listed path. */
  function Restore(d: Value, path: string, listed: seq<string>): Value {
    match d
    case Str(s) => if path in listed && IsIntText(s) then Big(ParseInt(s)) else d
    case Arr(items) =>
      Arr(seq(|items|, i requires 0 <= i < |items| => Restore(items[i], Extend(path, Index(i)), listed)))
    case Obj(fields) =>
      Obj(seq(|fields|, i requires 0 <= i < |fields| =>
        Field(fields[i].key, Restore(fields[i].value, Extend(path, Key(fields[i].key)), listed))))
    case _ => d
  }

  /** What one position asks for: its bigint is listed, its integer text is not, and its object has no
      `__proto__` property. */
  predicate PlaceOk(v: Value, path: string, listed: seq<string>) {
    match v
    case Big(_) => path in listed
    case Str(s) => !(path in listed && IsIntText(s))
    case Obj(fields) => BigIntUtils.NoProto(fields)
    case _ => true
  }

  predicate RestorableAt(v: Value, path: string, listed: seq<string>) {
    PlaceOk(v, path, listed) &&
    match v
    case Arr(items) => forall i :: 0 <= i < |items| ==> RestorableAt(items[i], Extend(path, Index(i)), listed)
    case Obj(fields) =>
      forall i :: 0 <= i < |fields| ==> RestorableAt(fields[i].value, Extend(path, Key(fields[i].key)), listed)
    case _ => true
  }

  lemma {:induction false} RestoreIff(v: Value, path: string, listed: seq<string>)
    requires WellFormed(v)
    ensures Restore(BigIntUtils.Stringify(v), path, listed) == v <==> RestorableAt(v, path, listed)
    decreases v, 1
  {
    match v
    case Big(i) => ParseIntToString(i);
    case Arr(items) =>
      var back := Restore(BigIntUtils.Stringify(v), path, listed).items;
      forall i | 0 <= i < |items|
        ensures back[i] == items[i] <==> RestorableAt(items[i], Extend(path, Index(i)), listed)
      {
        RestoreIff(items[i], Extend(path, Index(i)), listed);
      }
      assert back == items <==> forall i :: 0 <= i < |items| ==> back[i] == items[i];
    case Obj(fields) =>
      BigIntUtils.StringifyFieldsShape(fields);
      if BigIntUtils.NoProto(fields) {
        RestoreFieldsIff(fields, path, listed);
      }
    case _ =>
  }

  lemma {:induction false} RestoreFieldsIff(fields: seq<Field>, path: string, listed: seq<string>)
    requires WellFormed(Obj(fields)) && BigIntUtils.NoProto(fields)
    ensures Restore(Obj(BigIntUtils.StringifyFields(fields)), path, listed) == Obj(fields) <==>
            RestorableAt(Obj(fields), path, listed)
    decreases fields, 0
  {
    BigIntUtils.StringifyFieldsShape(fields);
    var back := Restore(Obj(BigIntUtils.StringifyFields(fields)), path, listed).fields;
    forall i | 0 <= i < |fields|
      ensures back[i] == fields[i] <==> RestorableAt(fields[i].value, Extend(path, Key(fields[i].key)), listed)
    {
      RestoreIff(fields[i].value, Extend(path, Key(fields[i].key)), listed);
    }
    assert back == fields <==> forall i :: 0 <= i < |fields| ==> back[i] == fields[i];
  }

  lemma {:induction false} RestorableDown(v: Value, path: string, listed: seq<string>, s: seq<Step>)
    requires RestorableAt(v, path, listed) && At(v, s).Some?
    ensures PlaceOk(At(v, s).value, Print(path, s), listed)
    decreases v
  {
    if s != [] {
      match v
      case Arr(items) => RestorableDown(items[s[0].i], Extend(path, s[0]), listed, s[1..]);
      case Obj(fields) =>
        RestorableDown(fields[IndexOf(fields, s[0].k)].value, Extend(path, s[0]), listed, s[1..]);
    }
  }

  ghost predicate PlacesOk(v: Value, path: string, listed: seq<string>) {
    forall s :: At(v, s).Some? ==> PlaceOk(At(v, s).value, Print(path, s), listed)
  }

  lemma ChildPlacesOk(v: Value, path: string, listed: seq<string>, step: Step)
    requires PlacesOk(v, path, listed) && At(v, [step]).Some?
    ensures PlacesOk(At(v, [step]).value, Extend(path, step), listed)
  {
    var child := At(v, [step]).value;
    assert [step][1..] == [];
    forall s | At(child, s).Some? ensures PlaceOk(At(child, s).value, Print(Extend(path, step), s), listed) {
      assert ([step] + s)[1..] == s;
      assert At(v, [step] + s) == At(child, s);
    }
  }

  /** Restorable through and through means restorable at every position. */
  lemma {:induction false} RestorableIffPlacesOk(v: Value, path: string, listed: seq<string>)
    requires WellFormed(v)
    ensures RestorableAt(v, path, listed) <==> PlacesOk(v, path, listed)
    decreases v
  {
    if RestorableAt(v, path, listed) {
      forall s | At(v, s).Some? ensures PlaceOk(At(v, s).value, Print(path, s), listed) {
        RestorableDown(v, path, listed, s);
      }
    }
    if PlacesOk(v, path, listed) {
      assert At(v, []).Some? && PlaceOk(v, Print(path, []), listed);
      match v
      case Arr(items) =>
        forall i | 0 <= i < |items| ensures RestorableAt(items[i], Extend(path, Index(i)), listed) {
          ChildPlacesOk(v, path, listed, Index(i));
          RestorableIffPlacesOk(items[i], Extend(path, Index(i)), listed);
        }
      case Obj(fields) =>
        forall i | 0 <= i < |fields| ensures RestorableAt(fields[i].value, Extend(path, Key(fields[i].key)), listed) {
          OwnIndex(fields, i);
          ChildPlacesOk(v, path, listed, Key(fields[i].key));
          RestorableIffPlacesOk(fields[i].value, Extend(path, Key(fields[i].key)), listed);
        }
      case _ =>
    }
  }

  ghost predicate IntTextAt(v: Value, s: seq<Step>) {
    At(v, s).Some? && At(v, s).value.Str? && IsIntText(At(v, s).value.s)
  }

  /** No object has a `__proto__` property, every bigint prints a path, and no integer text prints the
      path of a bigint. */
  ghost predicate Recoverable(v: Value) {
    && (forall s :: At(v, s).Some? && At(v, s).value.Obj? ==> BigIntUtils.NoProto(At(v, s).value.fields))
    && (forall s :: BigAt(v, s) ==> Print("", s) != "")
    && (forall s, t :: IntTextAt(v, s) && BigAt(v, t) ==> Print("", s) != Print("", t))
  }

  function ListOf(r: ApiResponse): seq<string> {
    if r.bigIntFields.Some? then r.bigIntFields.value else []
  }

  lemma PlaceOkIff(v: Value, s: seq<Step>)
    requires WellFormed(v) && At(v, s).Some?
    ensures PlaceOk(At(v, s).value, Print("", s), Paths(v, "")) <==>
            match At(v, s).value
            case Big(_) => Print("", s) != ""
            case Str(x) =>
              IsIntText(x) ==> Print("", s) == "" || forall t :: BigAt(v, t) ==> Print("", s) != Print("", t)
            case Obj(fields) => BigIntUtils.NoProto(fields)
            case _ => true
  {
    ListedIff(v, Print("", s));
    assert At(v, s).value.Big? ==> BigAt(v, s);
  }

  lemma PlacesOkRecoverable(v: Value)
    requires WellFormed(v) && PlacesOk(v, "", Paths(v, ""))
    ensures Recoverable(v)
  {
    forall s | BigAt(v, s) ensures Print("", s) != "" {
      PlaceOkIff(v, s);
    }
    forall s, t | IntTextAt(v, s) && BigAt(v, t) ensures Print("", s) != Print("", t) {
      PlaceOkIff(v, s);
      PlaceOkIff(v, t);
    }
  }

  lemma RecoverablePlacesOk(v: Value)
    requires WellFormed(v) && Recoverable(v)
    ensures PlacesOk(v, "", Paths(v, ""))
  {
    forall s | At(v, s).Some? ensures PlaceOk(At(v, s).value, Print("", s), Paths(v, "")) {
      PlaceOkIff(v, s);
      assert At(v, s).value.Big? ==> BigAt(v, s);
      assert At(v, s).value.Str? && IsIntText(At(v, s).value.s) ==> IntTextAt(v, s);
    }
  }

  /** Exactly the recoverable values come back when the listed paths, and no others, are read as
      bigints. */
  lemma RestoredIffRecoverable(v: Value)
    requires WellFormed(v)
    ensures Restore(Transform(v).data, "", ListOf(Transform(v))) == v <==> Recoverable(v)
  {
    RestoreIff(v, "", Paths(v, ""));
    RestorableIffPlacesOk(v, "", Paths(v, ""));
    if PlacesOk(v, "", Paths(v, "")) {
      PlacesOkRecoverable(v);
    }
    if Recoverable(v) {
      RecoverablePlacesOk(v);
    }
  }

  lemma {:induction false} PlainAt(v: Value, s: seq<Step>)
    requires PlainKeys(v) && At(v, s).Some?
    ensures PlainKeys(At(v, s).value)
    decreases |s|
  {
    if s != [] {
      ChildFacts(v, s);
      PlainAt(At(v, [s[0]]).value, s[1..]);
    }
  }

  /** Values with plain keys whose root is not a bigint are recoverable. */
  lemma PlainIsRecoverable(v: Value)
    requires PlainKeys(v) && !v.Big?
    ensures Recoverable(v)
  {
    forall s | At(v, s).Some? && At(v, s).value.Obj? ensures BigIntUtils.NoProto(At(v, s).value.fields) {
      PlainAt(v, s);
    }
    forall s | BigAt(v, s) ensures Print("", s) != "" {
      PlainPrints(v, s);
    }
    forall s, t | IntTextAt(v, s) && BigAt(v, t) ensures Print("", s) != Print("", t) {
      if Print("", s) == Print("", t) {
        PrintInjective(v, "", s, t);
      }
    }
  }

  /** So reading exactly the listed paths back restores every such value, negatives included. */
  lemma LosslessTransform(v: Value)
    requires PlainKeys(v) && !v.Big?
    ensures Restore(Transform(v).data, "", ListOf(Transform(v))) == v
  {
    PlainIsWellFormed(v);
    PlainIsRecoverable(v);
    RestoredIffRecoverable(v);
  }

  /** Among recoverable values the response determines the value it was made from. */
  lemma ResponseDeterminesValue(v: Value, w: Value)
    requires WellFormed(v) && Recoverable(v) && WellFormed(w) && Recoverable(w)
    requires Transform(v) == Transform(w)
    ensures v == w
  {
    RestoredIffRecoverable(v);
    RestoredIffRecoverable(w);
  }

  // ---------- reading a path text ----------

  /** The part of s before the first stop. */
  function Until(s: string, stops: set<char>): (r: string)
    ensures |r| <= |s|
  {
    if s == "" || s[0] in stops then "" else [s[0]] + Until(s[1..], stops)
  }

  function Before(step: Step, rest: Option<seq<Step>>): Option<seq<Step>> {
    if rest.Some? then Some([step] + rest.value) else None
  }

  /** Left to right: a dot and a key, or an index in brackets. */
  function ReadSteps(text: string): Option<seq<Step>>
    decreases |text|
  {
    if text == "" then Some([])
    else if text[0] == '.' then
      var k := Until(text[1..], {'.', '['});
      Before(Key(k), ReadSteps(text[1 + |k|..]))
    else if text[0] == '[' then
      var digits := Until(text[1..], {']'});
      if Canonical(digits) && |digits| + 2 <= |text|
      then Before(Index(ParseNat(digits)), ReadSteps(text[|digits| + 2..])) else None
    else None
  }

  /** A key that comes first has no dot in front of it. */
  function ReadPath(text: string): Option<seq<Step>> {
    if text == "" || text[0] == '[' then ReadSteps(text) else ReadSteps("." + text)
  }

  lemma {:induction false} UntilCut(a: string, rest: string, stops: set<char>)
    requires FreeOf(a, stops) && CutAt(rest, stops)
    ensures Until(a + rest, stops) == a
  {
    if a == "" {
      assert a + rest == rest;
    } else {
      assert (a + rest)[1..] == a[1..] + rest;
      assert FreeOf(a[1..], stops);
      UntilCut(a[1..], rest, stops);
      assert [a[0]] + a[1..] == a;
    }
  }

  predicate PlainSteps(steps: seq<Step>) {
    forall i :: 0 <= i < |steps| && steps[i].Key? ==> PlainKey(steps[i].k)
  }

  function Suffixes(steps: seq<Step>): string {
    if steps == [] then "" else Suffix(steps[0]) + Suffixes(steps[1..])
  }

  lemma {:induction false} PrintSuffixes(path: string, steps: seq<Step>)
    requires path != ""
    ensures Print(path, steps) == path + Suffixes(steps)
    decreases steps
  {
    if steps == [] {
      assert path + Suffixes(steps) == path;
    } else {
      ExtendSuffix(path, steps[0], "");
      PrintSuffixes(Extend(path, steps[0]), steps[1..]);
      Seqs.Assoc(path, Suffix(steps[0]), Suffixes(steps[1..]));
    }
  }

  lemma SuffixesCut(steps: seq<Step>)
    ensures CutAt(Suffixes(steps), {'.', '['})
  {
    if steps != [] {
      ExtendSuffix("x", steps[0], Suffixes(steps[1..]));
    }
  }

  lemma ReadKey(k: string, rest: string)
    requires PlainKey(k) && CutAt(rest, {'.', '['})
    ensures ReadSteps("." + k + rest) == Before(Key(k), ReadSteps(rest))
  {
    var text := "." + k + rest;
    assert text[1..] == k + rest;
    UntilCut(k, rest, {'.', '['});
    assert text[1 + |k|..] == rest;
  }

  lemma ReadIndex(i: nat, rest: string)
    ensures ReadSteps("[" + NatToString(i) + "]" + rest) == Before(Index(i), ReadSteps(rest))
  {
    var digits := NatToString(i);
    var text := "[" + digits + "]" + rest;
    assert text[1..] == digits + ("]" + rest);
    NumeralFreeOf(i, {']'});
    UntilCut(digits, "]" + rest, {']'});
    assert text[|digits| + 2..] == rest;
    NatTextExact(digits, i);
  }

  lemma ReadStep(step: Step, rest: string)
    requires step.Key? ==> PlainKey(step.k)
    requires CutAt(rest, {'.', '['})
    ensures ReadSteps(Suffix(step) + rest) == Before(step, ReadSteps(rest))
  {
    match step
    case Key(k) => ReadKey(k, rest);
    case Index(i) => ReadIndex(i, rest);
  }

  lemma PlainTail(steps: seq<Step>)
    requires PlainSteps(steps) && steps != []
    ensures PlainSteps(steps[1..]) && [steps[0]] + steps[1..] == steps
  {
    assert forall i :: 0 <= i < |steps[1..]| ==> steps[1..][i] == steps[i + 1];
  }

  lemma {:induction false} ReadSuffixes(steps: seq<Step>)
    requires PlainSteps(steps)
    ensures ReadSteps(Suffixes(steps)) == Some(steps)
  {
    if steps != [] {
      var step, tail := steps[0], steps[1..];
      PlainTail(steps);
      ReadSuffixes(tail);
      SuffixesCut(tail);
      ReadStep(step, Suffixes(tail));
      assert Before(step, Some(tail)) == Some(steps);
    }
  }

  /** A printed path is read back as the position it was printed for. */
  lemma PathReadBack(steps: seq<Step>)
    requires PlainSteps(steps)
    ensures ReadPath(Print("", steps)) == Some(steps)
  {
    ReadSuffixes(steps);
    if steps != [] {
      var first := Extend("", steps[0]);
      PrintSuffixes(first, steps[1..]);
      match steps[0]
      case Key(k) => Seqs.Assoc(".", k, Suffixes(steps[1..]));
      case Index(i) =>
    }
  }

  lemma {:induction false} PlainPosition(v: Value, s: seq<Step>)
    requires PlainKeys(v) && At(v, s).Some?
    ensures PlainSteps(s) && BigIntUtils.AvoidsProto(s)
    decreases |s|
  {
    if s != [] {
      ChildFacts(v, s);
      PlainPosition(At(v, [s[0]]).value, s[1..]);
      assert forall i :: 0 < i < |s| ==> s[i] == s[1..][i - 1];
    }
  }

  /** The listed path p, read as a text, leads to a bigint of v and to its text in the data. */
  ghost predicate Leads(v: Value, data: Value, p: string) {
    var s := ReadPath(p);
    s.Some? && BigAt(v, s.value) && At(data, s.value).Some? &&
    BigIntUtils.Replaces(At(data, s.value).value, At(v, s.value).value)
  }

  /** Whoever reads the listed paths finds under each of them the canonical text of a bigint, and misses
      none. */
  lemma ListedPathsLead(v: Value)
    requires PlainKeys(v) && !v.Big?
    ensures forall p :: p in ListOf(Transform(v)) ==> Leads(v, Transform(v).data, p)
    ensures forall s :: BigAt(v, s) ==> exists p :: p in ListOf(Transform(v)) && ReadPath(p) == Some(s)
  {
    PlainIsWellFormed(v);
    BigIntUtils.StringifyPrints(v);
    forall p | p in ListOf(Transform(v)) ensures Leads(v, Transform(v).data, p) {
      ListedIff(v, p);
      var s :| BigAt(v, s) && Print("", s) == p;
      PlainPosition(v, s);
      PathReadBack(s);
      assert BigIntUtils.ReplacedAt(v, Transform(v).data, s);
    }
    forall s | BigAt(v, s) ensures exists p :: p in ListOf(Transform(v)) && ReadPath(p) == Some(s) {
      PlainPosition(v, s);
      PathReadBack(s);
      PlainPrints(v, s);
      ListedIff(v, Print("", s));
      assert Print("", s) in ListOf(Transform(v));
    }
  }

  // ---------- outside the domain: values the response cannot tell apart ----------

  predicate Collide(v: Value, w: Value) {
    v != w && Transform(v) == Transform(w)
  }

  lemma RootBigCollides(n: int)
    ensures Collide(Big(n), Str(IntToString(n)))
  {
  }

  lemma OneField(f: Field, path: string)
    ensures BigIntUtils.StringifyFields([f]) == Put([], f.key, BigIntUtils.Stringify(f.value))
    ensures FieldPaths([f], path) == Paths(f.value, Extend(path, Key(f.key)))
  {
    assert [f][..0] == [];
    assert FieldPaths([], path) == [];
  }

  lemma TwoFields(f: Field, g: Field)
    requires f.key != g.key && f.key != PROTO && g.key != PROTO
    ensures BigIntUtils.StringifyFields([f, g]) ==
            [Field(f.key, BigIntUtils.Stringify(f.value)), Field(g.key, BigIntUtils.Stringify(g.value))]
    ensures FieldPaths([f, g], "") == Paths(f.value, f.key) + Paths(g.value, g.key)
  {
    OneField(f, "");
    assert [f, g][..1] == [f];
  }

  lemma EmptyKeyCollides(n: int)
    ensures Collide(Obj([Field("", Big(n))]), Obj([Field("", Str(IntToString(n)))]))
  {
    OneField(Field("", Big(n)), "");
    OneField(Field("", Str(IntToString(n))), "");
  }

  /** A key longer than those of fields. */
  function NewKey(fields: seq<Field>): (k: string)
    ensures forall i :: 0 <= i < |fields| ==> |fields[i].key| < |k|
  {
    if fields == [] then "k" else
    var n := |fields| - 1;
    var k := NewKey(fields[..n]);
    assert forall i :: 0 <= i < n ==> fields[..n][i] == fields[i];
    k + fields[n].key
  }

  /** A value that differs from v and has bigints in the same places. */
  function Sibling(v: Value): Value {
    match v
    case Big(i) => Big(i + 1)
    case Arr(items) => Arr(items + [Null])
    case Obj(fields) => Obj(fields + [Field(NewKey(fields), Null)])
    case Null => Undefined
    case _ => Null
  }

  lemma SiblingOfArr(items: seq<Value>, path: string)
    requires WellFormed(Arr(items))
    ensures Arr(items + [Null]) != Arr(items) && WellFormed(Arr(items + [Null]))
    ensures ItemPaths(items + [Null], path) == ItemPaths(items, path)
  {
    var more := items + [Null];
    assert more[..|items|] == items && more[|items|] == Null;
    assert Paths(Null, Extend(path, Index(|items|))) == [];
  }

  lemma SiblingOfObj(fields: seq<Field>, path: string)
    requires WellFormed(Obj(fields))
    ensures var more := fields + [Field(NewKey(fields), Null)];
            more != fields && WellFormed(Obj(more)) && FieldPaths(more, path) == FieldPaths(fields, path)
  {
    var last := Field(NewKey(fields), Null);
    var more := fields + [last];
    assert more[..|fields|] == fields && more[|fields|] == last;
    assert Paths(last.value, Extend(path, Key(last.key))) == [];
  }

  lemma SiblingFacts(v: Value, path: string)
    requires WellFormed(v)
    ensures Sibling(v) != v && WellFormed(Sibling(v)) && Paths(Sibling(v), path) == Paths(v, path)
  {
    match v
    case Arr(items) => SiblingOfArr(items, path);
    case Obj(fields) => SiblingOfObj(fields, path);
    case _ =>
  }

  lemma SameResponse(v: seq<Field>, w: seq<Field>)
    requires FieldPaths(v, "") == FieldPaths(w, "")
    requires BigIntUtils.StringifyFields(v) == BigIntUtils.StringifyFields(w)
    ensures Transform(Obj(v)) == Transform(Obj(w))
  {
  }

  /** What an object has under `__proto__` leaves no trace in the data: whatever it is, something else
      in its place gets the same response. */
  lemma ProtoKeyCollides(v: Value) returns (w: Value)
    requires WellFormed(v)
    ensures WellFormed(w) && Collide(Obj([Field(PROTO, v)]), Obj([Field(PROTO, w)]))
  {
    w := Sibling(v);
    SiblingFacts(v, PROTO);
    OneField(Field(PROTO, v), "");
    OneField(Field(PROTO, w), "");
    assert Extend("", Key(PROTO)) == PROTO;
    SameResponse([Field(PROTO, v)], [Field(PROTO, w)]);
    assert [Field(PROTO, v)][0].value != [Field(PROTO, w)][0].value;
  }

  /** A bigint under one key and its text under another, or the other way round: one response for
      both when the two places print the same path. */
  lemma SwappedCollide(outer: string, holder: string, inBig: Value, inText: Value, n: int)
    requires outer != "" && holder != "" && outer != holder && outer != PROTO && holder != PROTO
    requires inBig != inText && BigIntUtils.Stringify(inBig) == BigIntUtils.Stringify(inText)
    requires Paths(inBig, holder) == [outer] && Paths(inText, holder) == []
    ensures Collide(Obj([Field(outer, Big(n)), Field(holder, inText)]),
                    Obj([Field(outer, Str(IntToString(n))), Field(holder, inBig)]))
  {
    var text := Str(IntToString(n));
    var v := [Field(outer, Big(n)), Field(holder, inText)];
    var w := [Field(outer, text), Field(holder, inBig)];
    TwoFields(v[0], v[1]);
    TwoFields(w[0], w[1]);
    assert FieldPaths(v, "") == [outer] + [] && FieldPaths(w, "") == [] + [outer];
    assert BigIntUtils.Stringify(Big(n)) == text == BigIntUtils.Stringify(text);
    SameResponse(v, w);
    assert v[0].value != w[0].value;
  }

  /** {"a.b": n, a: {b: "n"}} and {"a.b": "n", a: {b: n}} get one response, for all keys a and b. */
  lemma DottedKeyCollides(a: string, b: string, n: int)
    requires a != "" && a != PROTO && b != PROTO && a + "." + b != PROTO
    ensures Collide(Obj([Field(a + "." + b, Big(n)), Field(a, Obj([Field(b, Str(IntToString(n)))]))]),
                    Obj([Field(a + "." + b, Str(IntToString(n))), Field(a, Obj([Field(b, Big(n))]))]))
  {
    OneField(Field(b, Big(n)), a);
    OneField(Field(b, Str(IntToString(n))), a);
    assert |a + "." + b| > |a|;
    SwappedCollide(a + "." + b, a, Obj([Field(b, Big(n))]), Obj([Field(b, Str(IntToString(n)))]), n);
  }

  /** {"a[0]": n, a: ["n"]} and {"a[0]": "n", a: [n]} get one response too. */
  lemma BracketKeyCollides(a: string, n: int)
    requires a != "" && a != PROTO && a + "[" + "0" + "]" != PROTO
    ensures var key := a + "[" + "0" + "]";
            Collide(Obj([Field(key, Big(n)), Field(a, Arr([Str(IntToString(n))]))]),
                    Obj([Field(key, Str(IntToString(n))), Field(a, Arr([Big(n)]))]))
  {
    var text := Str(IntToString(n));
    assert NatToString(0) == "0";
    assert [text][..0] == [] && [Big(n)][..0] == [];
    assert ItemPaths([], a) == [];
    assert ItemPaths([text], a) == [];
    assert ItemPaths([Big(n)], a) == [a + "[" + "0" + "]"];
    assert BigIntUtils.Stringify(Arr([Big(n)])).items == [text] == BigIntUtils.Stringify(Arr([text])).items;
    SwappedCollide(a + "[" + "0" + "]", a, Arr([Big(n)]), Arr([text]), n);
  }

  // ---------- the interceptor in front of every response ----------

  datatype Reply = Plain(value: Value) | Wrapped(response: ApiResponse)

  function Intercept(data: Value): Reply {
    if data.Null? || data.Undefined? then Plain(data)
    else if HasBig(data) then Wrapped(Transform(data))
    else Plain(data)
  }

  /** A reply is wrapped exactly for the values with a bigint, is free of bigints, and is restored from
      what was sent exactly for the recoverable ones. */
  lemma InterceptorLossless(v: Value)
    requires WellFormed(v)
    ensures Intercept(v).Wrapped? <==> HasBig(v)
    ensures match Intercept(v)
            case Plain(d) => d == v && !HasBig(d)
            case Wrapped(r) => !HasBig(r.data) && (Restore(r.data, "", ListOf(r)) == v <==> Recoverable(v))
  {
    RestoredIffRecoverable(v);
    BigIntUtils.StringifyHasNoBig(v);
  }
}
