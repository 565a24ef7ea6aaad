/** What a cached run gives to its nodes: outputs of the stored run or outputs of its own
    (caching-service, lib/input-parser.js and lib/runner.js; pipeline-driver, lib/tasks/task-runner.js). */
module CachedRun {
  import opened Collections
  import opened Graphs
  import opened Pipelines
  import opened Validation
  import opened Caching

  // ---------------------------------------------------------------- splitInputToNodes

  /** s.split(c)[0] */
  function UpTo(s: string, c: char): (r: string)
    ensures c !in r && r <= s
    ensures c !in s ==> r == s
    ensures |r| < |s| ==> s[|r|] == c
  {
    if s == [] || s[0] == c then [] else [s[0]] + UpTo(s[1..], c)
  }

  /** s.split(c)[1], which is undefined without a c */
  function SecondPart(s: string, c: char): (r: Option<string>)
    ensures r.Some? <==> c in s
  {
    var first := UpTo(s, c);
    if |first| == |s| then None else Some(UpTo(s[|first| + 1..], c))
  }

  /** The name read from an input: only a string is looked at, from its first @ to the dot; an empty text
      after the @ is falsy, and so is an empty name once it is found. */
  function NameRead(i: Input): (r: Option<string>)
    ensures r.Some? ==> r.value != "" && i.text.Some? && '@' in i.text.value
  {
    if i.text.None? then None
    else
      var findAt := SecondPart(i.text.value, '@');
      if findAt.None? || findAt.value == "" then None
      else
        var name := UpTo(findAt.value, '.');
        if name == "" then None else Some(name)
  }

  predicate Plain(name: string) { name != "" && '@' !in name && '.' !in name }

  /** "@name" and "@name.path" read the name. */
  lemma ReadsPlainName(name: string, path: string, i: Input)
    requires Plain(name) && '@' !in path
    requires i.text == Some("@" + name) || i.text == Some("@" + name + "." + path)
    ensures NameRead(i) == Some(name)
  {
    var text := i.text.value;
    assert text[0] == '@' && UpTo(text, '@') == "";
    var after := if i.text == Some("@" + name) then name else name + "." + path;
    assert text[1..] == after;
    if after != name {
      UpToMiddle(name, '.', path);
      assert after == name + ['.'] + path;
    }
  }

  lemma {:induction false} UpToMiddle(s: string, c: char, t: string)
    requires c !in s
    ensures UpTo(s + [c] + t, c) == s
  {
    if s != "" {
      assert (s + [c] + t)[1..] == s[1..] + [c] + t;
      UpToMiddle(s[1..], c, t);
    }
  }

  /** The text is a first part without an @, then @, the name, and then nothing, another @ or a dot. */
  ghost predicate Around(text: string, before: string, name: string, after: string) {
    && text == before + ['@'] + name + after && '@' !in before
    && (after == [] || after[0] == '@' || after[0] == '.')
  }

  /** An input reads exactly the name between its first @ and what ends it, whatever stands around them. */
  lemma NameReadExactly(i: Input, name: string)
    ensures NameRead(i) == Some(name) <==>
              Plain(name) && i.text.Some? && exists before, after :: Around(i.text.value, before, name, after)
  {
    if NameRead(i) == Some(name) {
      ReadsAround(i.text.value, name);
    }
    if Plain(name) && i.text.Some? {
      if before, after :| Around(i.text.value, before, name, after) {
        AroundReads(i, before, name, after);
      }
    }
  }

  lemma SplitsAt(s: string, c: char)
    requires c in s
    ensures var first := UpTo(s, c); |first| < |s| && s == first + [c] + s[|first| + 1..]
  {
    var first := UpTo(s, c);
    hide UpTo;
    assert |first| == |s| ==> first == s;
  }

  /** What the first part leaves is nothing or starts with what ends it. */
  lemma CutAt(s: string, c: char)
    ensures var first := UpTo(s, c);
            s == first + s[|first|..] && (s[|first|..] == [] || s[|first|..][0] == c)
  {
    hide UpTo;
  }

  lemma JoinAround(text: string, before: string, tail: string, second: string, name: string)
    requires text == before + ['@'] + tail && '@' !in before && second <= tail && name <= second
    requires second[|name|..] == [] || second[|name|..][0] == '.'
    requires tail[|second|..] == [] || tail[|second|..][0] == '@'
    ensures Around(text, before, name, tail[|name|..])
  {
    assert tail == name + tail[|name|..];
    if tail[|name|..] != [] {
      assert tail[|name|] == if |name| < |second| then second[|name|..][0] else tail[|second|..][0];
    }
  }

  lemma NotInPrefix(c: char, prefix: string, s: string)
    requires prefix <= s && c !in s
    ensures c !in prefix
  {
  }

  lemma ReadsAround(text: string, name: string)
    requires NameRead(Input([], true, Some(text))) == Some(name)
    ensures Plain(name) && exists before, after :: Around(text, before, name, after)
  {
    hide UpTo, Around;
    var before := UpTo(text, '@');
    SplitsAt(text, '@');
    var tail := text[|before| + 1..];
    CutAt(tail, '@');
    CutAt(UpTo(tail, '@'), '.');
    NotInPrefix('@', name, UpTo(tail, '@'));
    JoinAround(text, before, tail, UpTo(tail, '@'), name);
  }

  lemma {:induction false} UpToAfter(s: string, c: char, t: string)
    requires c !in s && (t == [] || t[0] == c)
    ensures UpTo(s + t, c) == s
  {
    if t == [] {
      assert s + t == s;
    } else {
      assert s + t == s + [c] + t[1..];
      UpToMiddle(s, c, t[1..]);
    }
  }

  lemma AroundReads(i: Input, before: string, name: string, after: string)
    requires Plain(name) && i.text.Some? && Around(i.text.value, before, name, after)
    ensures NameRead(i) == Some(name)
  {
    var text := i.text.value;
    assert text == before + ['@'] + (name + after);
    UpToMiddle(before, '@', name + after);
    assert text[|before| + 1..] == name + after;
    var second := UpTo(name + after, '@');
    var more := UpTo(after, '@');
    UpToPast(name, '@', after);
    assert second == name + more;
    if more != [] {
      assert more[0] == after[0];
    }
    UpToAfter(name, '.', more);
  }

  lemma {:induction false} UpToPast(s: string, c: char, t: string)
    requires c !in s
    ensures UpTo(s + t, c) == s + UpTo(t, c)
  {
    if s == "" {
      assert s + t == t;
    } else {
      assert (s + t)[1..] == s[1..] + t;
      UpToPast(s[1..], c, t);
    }
  }

  /** splitInputToNodes: the names read from the inputs that are among the given nodes. */
  function SplitInputToNodes(inputs: seq<Input>, nodes: seq<string>): seq<string> {
    if inputs == [] then []
    else
      var name := NameRead(inputs[|inputs| - 1]);
      SplitInputToNodes(inputs[..|inputs| - 1], nodes) + if name.Some? && name.value in nodes then [name.value] else []
  }

  /** Some input of the node is a string that reads x. */
  predicate Reads(n: Node, x: string) {
    n.input.Some? && exists k :: 0 <= k < |n.input.value| && NameRead(n.input.value[k]) == Some(x)
  }

  lemma {:induction false} SplitExact(inputs: seq<Input>, nodes: seq<string>, x: string)
    ensures x in SplitInputToNodes(inputs, nodes) <==>
              x in nodes && exists k :: 0 <= k < |inputs| && NameRead(inputs[k]) == Some(x)
  {
    hide NameRead;
    if inputs != [] {
      var init, last := inputs[..|inputs| - 1], inputs[|inputs| - 1];
      SplitExact(init, nodes, x);
      SplitLast(inputs, nodes, x);
      hide SplitInputToNodes;
      assert forall k :: 0 <= k < |init| ==> init[k] == inputs[k];
    }
  }

  lemma SplitLast(inputs: seq<Input>, nodes: seq<string>, x: string)
    requires inputs != []
    ensures x in SplitInputToNodes(inputs, nodes) <==>
              x in SplitInputToNodes(inputs[..|inputs| - 1], nodes)
              || (x in nodes && NameRead(inputs[|inputs| - 1]) == Some(x))
  {
    hide NameRead;
  }

  method SplitInput(inputs: seq<Input>, nodes: seq<string>) returns (filtered: seq<string>)
    ensures filtered == SplitInputToNodes(inputs, nodes)
  {
    hide NameRead;
    filtered := [];
    for i := 0 to |inputs|
      invariant filtered == SplitInputToNodes(inputs[..i], nodes)
    {
      assert inputs[..i + 1][..i] == inputs[..i];
      var name := NameRead(inputs[i]);
      if name.Some? && name.value in nodes {
        filtered := filtered + [name.value];
      }
    }
    assert inputs[..|inputs|] == inputs;
  }

  // ---------------------------------------------------------------- the merge of stored outputs

  /** What the storage holds per node; a node that cannot be read is absent. */
  type Stored = map<string, seq<string>>

  /** An entry of the collected metadata; a failed read leaves null. */
  datatype Metadata = Metadata(id: string, outputs: Option<seq<Output>>)

  function OutputsOf(id: string, results: seq<string>): (r: seq<Output>)
    ensures |r| == |results| && forall i :: 0 <= i < |r| ==> r[i] == Output(id, results[i])
  {
    if results == [] then [] else OutputsOf(id, results[..|results| - 1]) + [Output(id, results[|results| - 1])]
  }

  function MetadataOf(id: string, stored: Stored): Metadata {
    Metadata(id, if id in stored then Some(OutputsOf(id, stored[id])) else None)
  }

  /** _collectMetaDataFromPredecessors */
  function Collected(flat: seq<string>, stored: Stored): (r: seq<Metadata>)
    ensures |r| == |flat| && forall i :: 0 <= i < |r| ==> r[i] == MetadataOf(flat[i], stored)
  {
    if flat == [] then [] else Collected(flat[..|flat| - 1], stored) + [MetadataOf(flat[|flat| - 1], stored)]
  }

  predicate Readable(names: seq<string>, stored: Stored) { forall x :: x in names ==> x in stored }

  /** The stored outputs of the given nodes, one node after the other. */
  function Reused(names: seq<string>, stored: Stored): seq<Output>
    requires Readable(names, stored)
  {
    if names == [] then []
    else Reused(names[..|names| - 1], stored) + OutputsOf(names[|names| - 1], stored[names[|names| - 1]])
  }

  function Dependents(n: Node, flat: seq<string>): seq<string> {
    if n.input.Some? then SplitInputToNodes(n.input.value, flat) else []
  }

  /** parentOutput after the merge: null when there is nothing to reuse. */
  function ParentOutputOf(n: Node, flat: seq<string>, stored: Stored): Option<seq<Output>>
    requires Readable(Dependents(n, flat), stored)
  {
    var reused := Reused(Dependents(n, flat), stored);
    if reused == [] then None else Some(reused)
  }

  /** The merge of a node throws: it has no input list, or it depends on outputs that could not be read. */
  predicate MergeThrows(n: Node, flat: seq<string>, stored: Stored) {
    n.input.None? || !Readable(Dependents(n, flat), stored)
  }

  lemma FindMetadata(flat: seq<string>, stored: Stored, id: string) returns (at: nat)
    requires id in flat
    ensures Find(Collected(flat, stored), (m: Metadata) => m.id == id) == Some(at)
    ensures at < |flat| && Collected(flat, stored)[at] == MetadataOf(id, stored)
  {
    hide Collected;
    var i :| 0 <= i < |flat| && flat[i] == id;
    assert Collected(flat, stored)[i].id == id;
    var found := Find(Collected(flat, stored), (m: Metadata) => m.id == id);
    at := found.value;
  }

  /** The callback of the merge for one node: null when nothing was pushed. */
  method MergeOne(n: Node, flat: seq<string>, ghost stored: Stored, metadata: seq<Metadata>)
    returns (threw: bool, parentOutput: Option<seq<Output>>)
    requires metadata == Collected(flat, stored)
    ensures threw <==> MergeThrows(n, flat, stored)
    ensures !threw ==> parentOutput == ParentOutputOf(n, flat, stored)
  {
    hide Collected, SplitInputToNodes, Readable, Reused;
    if n.input.None? {
      return true, None;
    }
    var dependents := SplitInput(n.input.value, flat);
    forall dn | dn in dependents ensures dn in flat { SplitExact(n.input.value, flat, dn); }
    var pushed;
    threw, pushed := PushOutputs(dependents, flat, stored, metadata);
    parentOutput := if pushed == [] then None else Some(pushed);
  }

  /** The outputs of the dependents, pushed one node after the other; null outputs cannot be spread. */
  method PushOutputs(dependents: seq<string>, flat: seq<string>, ghost stored: Stored, metadata: seq<Metadata>)
    returns (threw: bool, pushed: seq<Output>)
    requires metadata == Collected(flat, stored)
    requires forall dn :: dn in dependents ==> dn in flat
    ensures threw <==> !Readable(dependents, stored)
    ensures !threw ==> pushed == Reused(dependents, stored)
  {
    hide Collected;
    pushed := [];
    for i := 0 to |dependents|
      invariant Readable(dependents[..i], stored)
      invariant pushed == Reused(dependents[..i], stored)
    {
      var dn := dependents[i];
      ghost var at := FindMetadata(flat, stored, dn);
      var found := Find(metadata, (m: Metadata) => m.id == dn);
      var outputs := metadata[found.value].outputs;
      if outputs.None? {
        assert dn in dependents && dn !in stored;
        return true, [];
      }
      assert dependents[..i + 1] == dependents[..i] + [dn];
      assert dependents[..i + 1][..i] == dependents[..i];
      pushed := pushed + outputs.value;
    }
    assert dependents[..|dependents|] == dependents;
    threw := false;
  }

  /** The record holds what the merge makes of its node. */
  ghost predicate Merged(r: PipelineNode, flat: seq<string>, stored: Stored)
    reads r
  {
    !MergeThrows(r.node, flat, stored) && r.parentOutput == ParentOutputOf(r.node, flat, stored)
  }

  /** _mergeSubPipelineWithMetadata: parentOutput of each record is overwritten in turn. */
  method MergeSubPipeline(kept: seq<PipelineNode>, flat: seq<string>, ghost stored: Stored, metadata: seq<Metadata>)
    returns (threw: bool)
    requires metadata == Collected(flat, stored)
    modifies kept
    ensures threw <==> exists i :: 0 <= i < |kept| && MergeThrows(kept[i].node, flat, stored)
    ensures !threw ==> forall i :: 0 <= i < |kept| ==> Merged(kept[i], flat, stored)
  {
    hide ParentOutputOf;
    for i := 0 to |kept|
      invariant forall k :: 0 <= k < i ==> Merged(kept[k], flat, stored)
    {
      var failed, parentOutput := MergeOne(kept[i].node, flat, stored, metadata);
      if failed {
        return true;
      }
      kept[i].parentOutput := parentOutput;
    }
    threw := false;
  }

  // ---------------------------------------------------------------- the input of a node in the cached run

  /** _runNode: the merged outputs take the place of those of the run. */
  function ParentOutput(merged: Option<seq<Output>>, ofRun: seq<Output>): seq<Output> {
    if merged.Some? then merged.value else ofRun
  }

  ghost predicate HasOutput(outputs: seq<Output>, x: string) {
    exists i :: 0 <= i < |outputs| && outputs[i].node == x
  }

  lemma HasOutputConcat(a: seq<Output>, b: seq<Output>, x: string)
    ensures HasOutput(a + b, x) <==> HasOutput(a, x) || HasOutput(b, x)
  {
    if HasOutput(a, x) {
      var i :| 0 <= i < |a| && a[i].node == x;
      assert (a + b)[i].node == x;
    }
    if HasOutput(b, x) {
      var i :| 0 <= i < |b| && b[i].node == x;
      assert (a + b)[|a| + i].node == x;
    }
  }

  lemma OutputsOfHave(id: string, results: seq<string>, x: string)
    ensures HasOutput(OutputsOf(id, results), x) <==> x == id && results != []
  {
    if results != [] {
      assert OutputsOf(id, results)[0].node == id;
    }
  }

  lemma {:induction false} ReusedHas(names: seq<string>, stored: Stored, x: string)
    requires Readable(names, stored)
    ensures HasOutput(Reused(names, stored), x) <==> x in names && stored[x] != []
  {
    hide HasOutput, OutputsOf;
    if names == [] {
      assert !HasOutput([], x) by { HasNothing(x); }
    } else {
      var init, last := names[..|names| - 1], names[|names| - 1];
      assert names == init + [last];
      ReusedHas(init, stored, x);
      HasOutputConcat(Reused(init, stored), OutputsOf(last, stored[last]), x);
      OutputsOfHave(last, stored[last], x);
    }
  }

  lemma HasNothing(x: string)
    ensures !HasOutput([], x)
  {
  }

  /** The run delivers to a kept node the outputs of exactly the kept nodes that it refers to. */
  ghost predicate Delivers(ofRun: seq<Output>, n: Node, kept: seq<Node>) {
    forall x :: HasOutput(ofRun, x) <==> RefersTo(n, x) && Named(kept, x)
  }

  /** The node reads, by a string input, a stored output of a node at or above the start. */
  ghost predicate ReadsStored(g: Graph, n: Node, start: string, stored: Stored, x: string) {
    Reads(n, x) && ReachesOrIs(g, x, start) && x in stored && stored[x] != []
  }

  lemma DependentsExact(g: Graph, n: Node, start: string, x: string)
    requires Proper(g)
    ensures x in Dependents(n, PredecessorsOf(g, start)) <==> Reads(n, x) && ReachesOrIs(g, x, start)
  {
    hide Proper, PredecessorsOf, ReachesOrIs, NameRead;
    FlattenedPredecessors(g, start);
    if n.input.Some? {
      SplitExact(n.input.value, PredecessorsOf(g, start), x);
    }
  }

  /** The merge of a node throws exactly when it has no input list or reads, by a string input, a node at or
      above the start whose outputs could not be read. */
  lemma MergeThrowsExactly(g: Graph, n: Node, start: string, stored: Stored)
    requires Proper(g)
    ensures MergeThrows(n, PredecessorsOf(g, start), stored) <==>
              n.input.None? || exists x :: Reads(n, x) && ReachesOrIs(g, x, start) && x !in stored
  {
    hide Proper, PredecessorsOf, ReachesOrIs, Reads, Dependents;
    forall x ensures x in Dependents(n, PredecessorsOf(g, start)) <==> Reads(n, x) && ReachesOrIs(g, x, start) {
      DependentsExact(g, n, start, x);
    }
  }

  /** What the merge leaves in a node: null unless the node reads some stored output, and then outputs of
      exactly the nodes whose stored outputs it reads. */
  lemma MergedExactly(g: Graph, n: Node, start: string, stored: Stored, x: string)
    requires Proper(g) && !MergeThrows(n, PredecessorsOf(g, start), stored)
    ensures var merged := ParentOutputOf(n, PredecessorsOf(g, start), stored);
      && (merged.Some? <==> exists y :: ReadsStored(g, n, start, stored, y))
      && (merged.Some? ==> (HasOutput(merged.value, x) <==> ReadsStored(g, n, start, stored, x)))
  {
    hide Proper, PredecessorsOf, ReachesOrIs, Reads, HasOutput, Dependents, Reused;
    var flat := PredecessorsOf(g, start);
    var reused := Reused(Dependents(n, flat), stored);
    forall y ensures HasOutput(reused, y) <==> ReadsStored(g, n, start, stored, y) {
      DependentsExact(g, n, start, y);
      ReusedHas(Dependents(n, flat), stored, y);
    }
    if reused == [] {
      forall y ensures !HasOutput(reused, y) { HasNothing(y); }
    } else {
      FirstIsOutput(reused);
    }
  }

  lemma OutputsOfHold(id: string, results: seq<string>, o: Output)
    ensures o in OutputsOf(id, results) <==> o.node == id && o.result in results
  {
    var outputs := OutputsOf(id, results);
    hide OutputsOf;
    if o.node == id && o.result in results {
      var i :| 0 <= i < |results| && results[i] == o.result;
      assert outputs[i] == o;
    }
  }

  lemma {:induction false} ReusedHolds(names: seq<string>, stored: Stored, o: Output)
    requires Readable(names, stored)
    ensures o in Reused(names, stored) <==> o.node in names && o.result in stored[o.node]
  {
    hide OutputsOf;
    if names != [] {
      var init, last := names[..|names| - 1], names[|names| - 1];
      assert names == init + [last];
      ReusedHolds(init, stored, o);
      OutputsOfHold(last, stored[last], o);
    }
  }

  /** Each result is reused that the storage holds for a node at or above the start that the node reads by a string
      input, and no other output. */
  lemma ResultsExactly(g: Graph, n: Node, start: string, stored: Stored, o: Output)
    requires Proper(g) && !MergeThrows(n, PredecessorsOf(g, start), stored)
    ensures var merged := ParentOutputOf(n, PredecessorsOf(g, start), stored);
            merged.Some? && o in merged.value <==>
              Reads(n, o.node) && ReachesOrIs(g, o.node, start) && o.node in stored && o.result in stored[o.node]
  {
    hide Proper, PredecessorsOf, ReachesOrIs, Reads, Dependents, Reused;
    var flat := PredecessorsOf(g, start);
    DependentsExact(g, n, start, o.node);
    ReusedHolds(Dependents(n, flat), stored, o);
  }

  lemma FirstIsOutput(outputs: seq<Output>)
    requires outputs != []
    ensures HasOutput(outputs, outputs[0].node)
  {
  }

  lemma NamedMember(kept: seq<Node>, x: string)
    ensures Named(kept, x) <==> exists m :: m in kept && m.nodeName == x
  {
    if Named(kept, x) {
      var i :| 0 <= i < |kept| && kept[i].nodeName == x;
      assert kept[i] in kept;
    }
  }

  /** The output for a reference of a kept node is there when the node runs again if and only if: either the
      node reads some stored output by a string input, and this reference is one of those it so reads; or it
      reads none, and the reference is to a node that runs again. */
  lemma ServedExactly(nodes: seq<Node>, checkFlowInput: bool, start: string, n: Node, x: string, stored: Stored,
                      ofRun: seq<Output>)
    requires VerdictOf(nodes, checkFlowInput) == Accepted && Named(nodes, start) && Proper(MapOf(nodes))
    requires n in SubNodes(nodes, start) && RefersTo(n, x)
    ensures var g := MapOf(nodes);
      !MergeThrows(n, PredecessorsOf(g, start), stored) && Delivers(ofRun, n, SubNodes(nodes, start)) ==>
        (HasOutput(ParentOutput(ParentOutputOf(n, PredecessorsOf(g, start), stored), ofRun), x) <==>
           if exists y :: ReadsStored(g, n, start, stored, y) then ReadsStored(g, n, start, stored, x)
           else ReachesOrIs(g, start, x))
  {
    hide VerdictOf, Reaches, MapOf, SubNodes, RefersTo, DistinctBy, PredecessorsOf, Proper, Named, HasOutput,
         ParentOutputOf, MergeThrows, Reads;
    var g := MapOf(nodes);
    if !MergeThrows(n, PredecessorsOf(g, start), stored) {
      MergedExactly(g, n, start, stored, x);
    }
    KeptExactly(nodes, checkFlowInput, start, n, x);
  }

  lemma KeptExactly(nodes: seq<Node>, checkFlowInput: bool, start: string, n: Node, x: string)
    requires VerdictOf(nodes, checkFlowInput) == Accepted && Named(nodes, start) && Proper(MapOf(nodes))
    requires n in SubNodes(nodes, start) && RefersTo(n, x)
    ensures Named(SubNodes(nodes, start), x) <==> ReachesOrIs(MapOf(nodes), start, x)
  {
    hide VerdictOf, Reaches, MapOf, SubNodes, RefersTo, DistinctBy, Proper, Named, NamesOf;
    SubNodesExactly(nodes, checkFlowInput, start);
    AcceptedMapIsProper(nodes, checkFlowInput);
    NamedMember(SubNodes(nodes, start), x);
    if ReachesOrIs(MapOf(nodes), start, x) {
      BelowIsNamed(nodes, start, x);
      NamedMember(nodes, x);
    }
  }

  // ---------------------------------------------------------------- references that are not served

  lemma EntryUnreached(nodes: seq<Node>, i: nat, y: string)
    requires i < |nodes| && DistinctBy(nodes, NodeName) && IsEntry(nodes[i])
    ensures !Reaches(MapOf(nodes), y, nodes[i].nodeName)
  {
    hide LinksOf, Reaches;
    var g := MapOf(nodes);
    if Reaches(g, y, nodes[i].nodeName) {
      var x := ReachesByLast(g, y, nodes[i].nodeName);
      LinksExact(nodes, Edge(x, nodes[i].nodeName));
    }
  }

  /** The input "@x" */
  function At(x: string): Input { Input([x], true, Some("@" + x)) }

  lemma AtReads(x: string)
    requires Plain(x)
    ensures NameRead(At(x)) == Some(x)
  {
    ReadsPlainName(x, "", At(x));
  }

  ghost predicate Usable(names: seq<string>) {
    Distinct(names) && RESERVED !in names && forall i :: 0 <= i < |names| ==> Plain(names[i])
  }

  /** Node s takes the output of a inside an object or a list. */
  function Nested(a: string, s: string): seq<Node> {
    [Node(a, Some([])), Node(s, Some([Input([a], true, None)]))]
  }

  lemma NestedIsAccepted(a: string, s: string)
    requires Usable([a, s])
    ensures VerdictOf(Nested(a, s), true) == Accepted
  {
    var nodes := Nested(a, s);
    assert [a, s][0] == a && [a, s][1] == s;
    assert nodes[..1][0].nodeName == a;
    hide VerdictOf;
    ForwardIsAccepted(nodes, true);
  }

  lemma NestedShape(a: string, s: string)
    requires a != s
    ensures var nodes := Nested(a, s);
      && |nodes| == 2 && nodes[0].nodeName == a && nodes[1].nodeName == s && IsEntry(nodes[0])
      && nodes[1].input.Some? && RefersTo(nodes[1], a) && forall x :: !Reads(nodes[1], x)
  {
    assert [a][0] == a;
    assert a in Nested(a, s)[1].input.value[0].refs;
  }

  /** Accepted pipelines in which the start gets nothing, whatever the storage holds: its reference is not a
      string of its own, so the output of its predecessor is not reused. */
  lemma NestedInputNotServed(a: string, s: string, stored: Stored, ofRun: seq<Output>)
    requires Usable([a, s])
    ensures var nodes := Nested(a, s);
      && VerdictOf(nodes, true) == Accepted && Proper(MapOf(nodes))
      && nodes[1] in SubNodes(nodes, s) && RefersTo(nodes[1], a) && a in PredecessorsOf(MapOf(nodes), s)
      && !MergeThrows(nodes[1], PredecessorsOf(MapOf(nodes), s), stored)
      && ParentOutputOf(nodes[1], PredecessorsOf(MapOf(nodes), s), stored) == None
      && (Delivers(ofRun, nodes[1], SubNodes(nodes, s)) ==> !HasOutput(ofRun, a))
  {
    var nodes := Nested(a, s);
    NestedIsAccepted(a, s);
    AcceptedMapIsProper(nodes, true);
    assert a != s by { assert [a, s][0] == a && [a, s][1] == s; }
    NestedShape(a, s);
    hide Nested, VerdictOf, MapOf, SubNodes, PredecessorsOf, Proper, HasOutput, Reads, Reaches, RefersTo, MergeThrows,
         Usable, IsEntry, DistinctBy;
    var g := MapOf(nodes);
    SubNodesExactly(nodes, true, s);
    StartInputsCollected(nodes, true, nodes[1], a);
    MergeThrowsExactly(g, nodes[1], s, stored);
    MergedExactly(g, nodes[1], s, stored, a);
    KeptExactly(nodes, true, s, nodes[1], a);
    EntryUnreached(nodes, 0, s);
  }

  /** Node k takes the output of s, and m takes those of s and k. */
  function Chain(s: string, k: string, m: string): seq<Node> {
    [Node(s, Some([])), Node(k, Some([At(s)])), Node(m, Some([At(s), At(k)]))]
  }

  /** Node c takes the outputs of a and b. */
  function Fork(a: string, b: string, c: string): seq<Node> {
    [Node(a, Some([])), Node(b, Some([])), Node(c, Some([At(a), At(b)]))]
  }

  lemma AtShape(n: Node, x: string, y: string)
    requires Plain(x) && Plain(y) && n.input == Some([At(x), At(y)])
    ensures forall z :: RefersTo(n, z) <==> z == x || z == y
    ensures forall z :: Reads(n, z) <==> z == x || z == y
  {
    AtReads(x);
    AtReads(y);
    hide NameRead;
    var inputs := n.input.value;
    assert inputs[0] == At(x) && inputs[1] == At(y);
    forall z ensures RefersTo(n, z) <==> z == x || z == y {
      if z == x { assert z in inputs[0].refs by { assert inputs[0].refs[0] == x; } }
      if z == y { assert z in inputs[1].refs by { assert inputs[1].refs[0] == y; } }
    }
    assert NameRead(inputs[0]) == Some(x) && NameRead(inputs[1]) == Some(y);
  }

  lemma AtOneShape(n: Node, x: string)
    requires n.input == Some([At(x)])
    ensures forall z :: RefersTo(n, z) <==> z == x
  {
    var inputs := n.input.value;
    assert inputs[0] == At(x) && inputs[0].refs[0] == x;
    assert x in inputs[0].refs;
  }

  lemma ThreeNames(a: string, b: string, c: string)
    requires Usable([a, b, c])
    ensures a != b && a != c && b != c && RESERVED != a && RESERVED != b && RESERVED != c
    ensures Plain(a) && Plain(b) && Plain(c)
  {
    var names := [a, b, c];
    assert names[0] == a && names[1] == b && names[2] == c;
    hide Plain;
  }

  /** Three nodes in an order that their references respect. */
  lemma ThreeAreAccepted(nodes: seq<Node>)
    requires |nodes| == 3 && Usable([nodes[0].nodeName, nodes[1].nodeName, nodes[2].nodeName])
    requires FlowInputsKnown(nodes)
    requires forall x :: !RefersTo(nodes[0], x)
    requires forall x :: RefersTo(nodes[1], x) ==> x == nodes[0].nodeName
    requires forall x :: RefersTo(nodes[2], x) ==> x == nodes[0].nodeName || x == nodes[1].nodeName
    ensures VerdictOf(nodes, true) == Accepted
  {
    ThreeNames(nodes[0].nodeName, nodes[1].nodeName, nodes[2].nodeName);
    hide Usable, RefersTo, FlowInputsKnown, VerdictOf;
    forall i, x | 0 <= i < |nodes| && RefersTo(nodes[i], x) ensures Named(nodes[..i], x) {
      assert nodes[..i][0] == nodes[0];
      assert i == 2 ==> nodes[..i][1] == nodes[1];
    }
    ForwardIsAccepted(nodes, true);
  }

  lemma ChainShape(s: string, k: string, m: string)
    requires Usable([s, k, m])
    ensures var nodes := Chain(s, k, m);
      && |nodes| == 3 && nodes[0].nodeName == s && nodes[1].nodeName == k && nodes[2].nodeName == m
      && nodes[2].input.Some? && VerdictOf(nodes, true) == Accepted
      && (forall x :: RefersTo(nodes[1], x) <==> x == s)
      && (forall x :: RefersTo(nodes[2], x) <==> x == s || x == k)
      && (forall x :: Reads(nodes[2], x) <==> x == s || x == k)
  {
    ThreeNames(s, k, m);
    var nodes := Chain(s, k, m);
    AtOneShape(nodes[1], s);
    AtShape(nodes[2], s, k);
    assert FlowInputsKnown(nodes);
    hide RefersTo, Reads, VerdictOf, Usable;
    ThreeAreAccepted(nodes);
  }

  lemma ForkShape(a: string, b: string, c: string)
    requires Usable([a, b, c])
    ensures var nodes := Fork(a, b, c);
      && |nodes| == 3 && nodes[0].nodeName == a && nodes[1].nodeName == b && nodes[2].nodeName == c
      && nodes[2].input.Some? && VerdictOf(nodes, true) == Accepted && IsEntry(nodes[0]) && IsEntry(nodes[1])
      && (forall x :: RefersTo(nodes[2], x) <==> x == a || x == b)
      && (forall x :: Reads(nodes[2], x) <==> x == a || x == b)
  {
    ThreeNames(a, b, c);
    var nodes := Fork(a, b, c);
    AtShape(nodes[2], a, b);
    assert FlowInputsKnown(nodes);
    hide RefersTo, Reads, VerdictOf, Usable;
    ThreeAreAccepted(nodes);
  }

  lemma ChainKept(s: string, k: string, m: string)
    requires Usable([s, k, m])
    ensures var nodes := Chain(s, k, m);
      && Proper(MapOf(nodes)) && nodes[1] in SubNodes(nodes, s) && nodes[2] in SubNodes(nodes, s)
      && !ReachesOrIs(MapOf(nodes), k, s)
  {
    var nodes := Chain(s, k, m);
    ChainShape(s, k, m);
    ThreeNames(s, k, m);
    AcceptedMapIsProper(nodes, true);
    hide Chain, VerdictOf, MapOf, SubNodes, Reads, Reaches, RefersTo, Usable, DistinctBy, WellFormed;
    var g := MapOf(nodes);
    ReferenceIsEdge(nodes, nodes[1], s);
    EdgeReaches(g, s, k);
    ReferenceIsEdge(nodes, nodes[2], s);
    EdgeReaches(g, s, m);
    SubNodesExactly(nodes, true, s);
    if Reaches(g, k, s) { ReachesTransitive(g, s, k, s); }
  }

  /** Accepted pipelines in which a node that runs again gets the stored output of the start and nothing of the
      run: m takes the outputs of the start s and of k, k runs again, and m does not get its output. */
  lemma OverriddenNotServed(s: string, k: string, m: string, stored: Stored, ofRun: seq<Output>)
    requires Usable([s, k, m]) && s in stored && stored[s] != []
    ensures var nodes := Chain(s, k, m);
      && VerdictOf(nodes, true) == Accepted && Proper(MapOf(nodes))
      && nodes[1] in SubNodes(nodes, s) && nodes[2] in SubNodes(nodes, s) && RefersTo(nodes[2], k)
      && !MergeThrows(nodes[2], PredecessorsOf(MapOf(nodes), s), stored)
      && var got := ParentOutput(ParentOutputOf(nodes[2], PredecessorsOf(MapOf(nodes), s), stored), ofRun);
         !HasOutput(got, k) && HasOutput(got, s)
  {
    var nodes := Chain(s, k, m);
    ChainShape(s, k, m);
    ChainKept(s, k, m);
    hide Chain, VerdictOf, MapOf, SubNodes, PredecessorsOf, HasOutput, Reads, Reaches, RefersTo, MergeThrows, Usable,
         Proper, ParentOutputOf;
    var g := MapOf(nodes);
    MergeThrowsExactly(g, nodes[2], s, stored);
    assert ReadsStored(g, nodes[2], s, stored, s);
    hide ReachesOrIs;
    MergedExactly(g, nodes[2], s, stored, k);
    MergedExactly(g, nodes[2], s, stored, s);
  }

  lemma ForkKept(a: string, b: string, c: string)
    requires Usable([a, b, c])
    ensures var nodes := Fork(a, b, c);
      && Proper(MapOf(nodes)) && nodes[2] in SubNodes(nodes, a)
      && !ReachesOrIs(MapOf(nodes), a, b) && !ReachesOrIs(MapOf(nodes), b, a)
  {
    var nodes := Fork(a, b, c);
    ForkShape(a, b, c);
    ThreeNames(a, b, c);
    AcceptedMapIsProper(nodes, true);
    hide Fork, VerdictOf, MapOf, SubNodes, Reads, Reaches, RefersTo, Usable, DistinctBy, IsEntry, Proper;
    EntryUnreached(nodes, 0, b);
    EntryUnreached(nodes, 1, a);
    ReferenceIsEdge(nodes, nodes[2], a);
    EdgeReaches(MapOf(nodes), a, c);
    SubNodesExactly(nodes, true, a);
  }

  /** Accepted pipelines in which a node that runs again waits for an output from beside the start: c takes the
      outputs of a and b, the pipeline runs again from a, and c does not get the output of b. */
  lemma SiblingNotServed(a: string, b: string, c: string, stored: Stored, ofRun: seq<Output>)
    requires Usable([a, b, c]) && a in stored
    ensures var nodes := Fork(a, b, c);
      && VerdictOf(nodes, true) == Accepted && Proper(MapOf(nodes))
      && nodes[2] in SubNodes(nodes, a) && RefersTo(nodes[2], b)
      && !MergeThrows(nodes[2], PredecessorsOf(MapOf(nodes), a), stored)
      && (Delivers(ofRun, nodes[2], SubNodes(nodes, a)) ==>
            !HasOutput(ParentOutput(ParentOutputOf(nodes[2], PredecessorsOf(MapOf(nodes), a), stored), ofRun), b))
  {
    var nodes := Fork(a, b, c);
    ForkShape(a, b, c);
    ForkKept(a, b, c);
    hide Fork, VerdictOf, MapOf, SubNodes, PredecessorsOf, HasOutput, Reads, Reaches, RefersTo, MergeThrows, Usable,
         ParentOutputOf, Proper, Delivers, IsEntry;
    var g := MapOf(nodes);
    MergeThrowsExactly(g, nodes[2], a, stored);
    hide ReachesOrIs;
    NamedMember(nodes, a);
    if Delivers(ofRun, nodes[2], SubNodes(nodes, a)) {
      ServedExactly(nodes, true, a, nodes[2], b, stored, ofRun);
    }
  }

  // ---------------------------------------------------------------- parse

  /** parse: nothing when an input list is missing, the node is unknown or outputs to reuse cannot be read;
      otherwise the records to run again, with what they reuse. */
  method Parse(pipeline: seq<PipelineNode>, start: string, stored: Stored) returns (r: Option<seq<PipelineNode>>)
    requires Proper(MapOf(NodesOf(pipeline)))
    modifies pipeline
    ensures var nodes := NodesOf(pipeline);
      && (r.None? <==>
            || (exists i :: 0 <= i < |nodes| && nodes[i].input.None?) || start !in MapOf(nodes).nodes
            || exists n :: n in SubNodes(nodes, start) && MergeThrows(n, PredecessorsOf(MapOf(nodes), start), stored))
      && (r.Some? ==>
            && NodesOf(r.value) == SubNodes(nodes, start)
            && (forall p :: p in r.value ==> p in pipeline && Merged(p, PredecessorsOf(MapOf(nodes), start), stored)))
  {
    hide Proper, MapOf, Turned, Walk, FlattenOnto, Kept, MergeThrows, Collected;
    var nodes := NodesOf(pipeline);
    var built := BuildGraph(nodes);
    if built.None? {
      return None;
    }
    var g := built.value;
    var up := new Visits();
    var successors := Collect(g, start, up);
    if successors == Thrown {
      return None;
    }
    ReverseIsProper(g);
    var down := new Visits();
    var predecessors := Collect(Reverse(g), start, down);
    if predecessors == Thrown {
      return None;
    }
    assert up.items == Walk(g, start) && down.items == Walk(Reverse(g), start);
    var flatSuccessors := Flatten(successors, start);
    var flatPredecessors := Flatten(predecessors, start);
    var kept := CreateSubPipeline(flatSuccessors, pipeline);
    assert NodesOf(kept) == SubNodes(nodes, start);
    assert flatPredecessors == PredecessorsOf(g, start);
    hide SubNodes, PredecessorsOf, Merged;
    assert forall i :: 0 <= i < |kept| ==> kept[i] in kept && kept[i] in pipeline;
    var threw := MergeSubPipeline(kept, flatPredecessors, stored, Collected(flatPredecessors, stored));
    if threw {
      var i :| 0 <= i < |kept| && MergeThrows(kept[i].node, flatPredecessors, stored);
      assert NodesOf(kept)[i] in NodesOf(kept);
      return None;
    }
    r := Some(kept);
  }
}
