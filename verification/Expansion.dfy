/** The recursive expansion of a value: a walk of the adapter's reference graph, which may be cyclic,
    bounded in depth and width. */
module Expansion {
  import opened Basics

  datatype Variable = Variable(name: string, value: string, typ: string, ref: int)

  datatype Node = Node(name: string, value: string, typ: string, ref: int, truncated: bool, children: seq<Node>)

  /** What the adapter answers to a variables request for each reference; None is an error. */
  type Graph = int -> Option<seq<Variable>>

  /** The arguments that stay the same during one walk. */
  datatype Config = Config(graph: Graph, java: bool, maxItems: nat, showSpecial: bool)

  /** The children of a reference, and whether some were cut off. */
  datatype Kids = Kids(nodes: seq<Node>, truncated: bool)

  predicate IsPythonSpecial(name: string) {
    || name == "special variables" || name == "function variables" || name == "class variables"
    || (|name| >= 4 && name[..2] == "__" && name[|name| - 2..] == "__")
  }

  predicate IsJavaWrapperType(t: string) {
    t in ["Integer", "Long", "Short", "Byte", "Float", "Double", "Boolean", "Character",
          "java.lang.Integer", "java.lang.Long", "java.lang.Short", "java.lang.Byte",
          "java.lang.Float", "java.lang.Double", "java.lang.Boolean", "java.lang.Character"]
  }

  function Visible(vars: seq<Variable>): (r: seq<Variable>)
    ensures forall i :: 0 <= i < |r| ==> !IsPythonSpecial(r[i].name)
  {
    if vars == [] then []
    else
      var front := Visible(vars[..|vars| - 1]);
      if IsPythonSpecial(vars[|vars| - 1].name) then front else front + [vars[|vars| - 1]]
  }

  function Filtered(c: Config, vars: seq<Variable>): seq<Variable> {
    if c.showSpecial then vars else Visible(vars)
  }

  function Shown(c: Config, vars: seq<Variable>): (r: seq<Variable>)
    ensures |r| <= c.maxItems
  {
    var src := Filtered(c, vars);
    if |src| > c.maxItems then src[..c.maxItems] else src
  }

  function FieldValue(vars: seq<Variable>): Option<string> {
    if vars == [] then None else if vars[0].name == "value" then Some(vars[0].value) else FieldValue(vars[1..])
  }

  predicate Wrapped(c: Config, v: Variable) {
    c.java && v.ref > 0 && IsJavaWrapperType(v.typ)
  }

  /** The primitive inside a boxed Java value, if the adapter gives it. */
  function Unwrapped(c: Config, ref: int): Option<string> {
    var vars := c.graph(ref);
    if vars.None? then None else FieldValue(vars.value)
  }

  /** One entry before its children are filled in. */
  function Leaf(c: Config, v: Variable): Node {
    if Wrapped(c, v) && Unwrapped(c, v.ref).Some? then Node(v.name, Unwrapped(c, v.ref).value, v.typ, 0, false, [])
    else Node(v.name, v.value, v.typ, v.ref, false, [])
  }

  /** The expansion of a reference; a depth below one counts as one. None is an adapter error at the reference itself. */
  function Expand(c: Config, ref: int, depth: int): Option<Kids>
    decreases depth, 1, 0
  {
    var vars := c.graph(ref);
    if vars.None? then None
    else Some(Kids(ExpandAll(c, Shown(c, vars.value), depth), |Filtered(c, vars.value)| > c.maxItems))
  }

  function ExpandAll(c: Config, vars: seq<Variable>, depth: int): (r: seq<Node>)
    ensures |r| == |vars|
    decreases depth, 0, |vars|
  {
    if vars == [] then []
    else ExpandAll(c, vars[..|vars| - 1], depth) + [ExpandOne(c, vars[|vars| - 1], depth)]
  }

  function ExpandOne(c: Config, v: Variable, depth: int): Node
    decreases depth, 0, 0
  {
    var n := Leaf(c, v);
    if n.ref > 0 && depth - 1 > 0 then
      var kids := Expand(c, n.ref, depth - 1);
      if kids.Some? then n.(children := kids.value.nodes, truncated := kids.value.truncated) else n
    else n
  }

  // ----- what a node shows, said of the adapter's answers alone -----

  /** Every name that starts and ends with its own two underscores is special, and three more are. */
  lemma SpecialNames(name: string)
    ensures IsPythonSpecial(name) <==>
            || name in {"special variables", "function variables", "class variables"}
            || exists middle :: name == "__" + middle + "__"
  {
    if |name| >= 4 && name[..2] == "__" && name[|name| - 2..] == "__" {
      var middle := name[2..|name| - 2];
      assert name == name[..2] + middle + name[|name| - 2..];
      assert name == "__" + middle + "__";
    }
    if middle :| name == "__" + middle + "__" {
      assert name[..2] == "__" && name[|name| - 2..] == "__";
    }
  }

  /** The boxed types are eight, each with or without its package. */
  lemma WrapperTypes(t: string)
    ensures IsJavaWrapperType(t) <==>
            exists base :: base in {"Integer", "Long", "Short", "Byte", "Float", "Double", "Boolean", "Character"}
                           && (t == base || t == "java.lang." + base)
  {
    var bases := {"Integer", "Long", "Short", "Byte", "Float", "Double", "Boolean", "Character"};
    assert "java.lang." + "Integer" == "java.lang.Integer" && "java.lang." + "Long" == "java.lang.Long";
    assert "java.lang." + "Short" == "java.lang.Short" && "java.lang." + "Byte" == "java.lang.Byte";
    assert "java.lang." + "Float" == "java.lang.Float" && "java.lang." + "Double" == "java.lang.Double";
    assert "java.lang." + "Boolean" == "java.lang.Boolean" && "java.lang." + "Character" == "java.lang.Character";
    if t in bases {
      assert t == t;
    }
  }

  function Hidden(c: Config): string -> bool {
    name => !c.showSpecial && IsPythonSpecial(name)
  }

  /** The positions of the variables whose names are not hidden, in order. */
  ghost predicate Picks(hidden: string -> bool, vars: seq<Variable>, at: seq<nat>) {
    && (forall i, j :: 0 <= i < j < |at| ==> at[i] < at[j])
    && (forall i :: 0 <= i < |at| ==> at[i] < |vars|)
    && (forall k :: 0 <= k < |vars| ==> (k in at <==> !hidden(vars[k].name)))
  }

  /** A boxed Java value whose object the adapter opens; k is its first field named value. */
  ghost predicate Opens(c: Config, v: Variable, k: int) {
    && c.java && v.ref > 0 && IsJavaWrapperType(v.typ) && c.graph(v.ref).Some?
    && var fields := c.graph(v.ref).value;
       0 <= k < |fields| && fields[k].name == "value" && forall j :: 0 <= j < k ==> fields[j].name != "value"
  }

  /** The node has the variable's name and type. It has its value and reference, or for a boxed value the one of its
      field and none. Its children are related to the adapter's answer for its reference, down to the depth. */
  ghost predicate ShowsVariable(c: Config, n: Node, v: Variable, depth: int)
    decreases depth, 0
  {
    && n.name == v.name && n.typ == v.typ
    && (if exists k :: Opens(c, v, k) then n.ref == 0 && exists k :: Opens(c, v, k) && n.value == c.graph(v.ref).value[k].value
        else n.ref == v.ref && n.value == v.value)
    && (if n.ref > 0 && depth > 1 && c.graph(n.ref).Some? then ShowsAnswer(c, n.ref, Kids(n.children, n.truncated), depth - 1)
        else n.children == [] && !n.truncated)
  }

  /** Node i shows the i-th of the first maxItems variables of the answer that pass the filter, and there are no other
      nodes; it is marked as truncated exactly when more pass. */
  ghost predicate ShowsAnswer(c: Config, ref: int, kids: Kids, depth: int)
    decreases depth, 2
  {
    c.graph(ref).Some? &&
    var vars := c.graph(ref).value;
    exists at :: Picks(Hidden(c), vars, at) && ShowsPicked(c, vars, at, kids, depth)
  }

  ghost predicate ShowsPicked(c: Config, vars: seq<Variable>, at: seq<nat>, kids: Kids, depth: int)
    requires Picks(Hidden(c), vars, at)
    decreases depth, 1
  {
    && |kids.nodes| == (if |at| > c.maxItems then c.maxItems else |at|)
    && (kids.truncated <==> |at| > c.maxItems)
    && forall i :: 0 <= i < |kids.nodes| ==> ShowsVariable(c, kids.nodes[i], vars[at[i]], depth)
  }

  lemma PickAll(hidden: string -> bool, vars: seq<Variable>) returns (at: seq<nat>)
    requires forall k :: 0 <= k < |vars| ==> !hidden(vars[k].name)
    ensures Picks(hidden, vars, at) && |at| == |vars| && forall i :: 0 <= i < |at| ==> at[i] == i
  {
    at := seq(|vars|, i => i);
    forall k | 0 <= k < |vars| ensures k in at {
      assert at[k] == k;
    }
  }

  lemma PickLast(hidden: string -> bool, vars: seq<Variable>, front: seq<Variable>, v: Variable, before: seq<nat>,
                 at: seq<nat>)
    requires vars == front + [v] && Picks(hidden, front, before)
    requires at == if hidden(v.name) then before else before + [|front|]
    ensures Picks(hidden, vars, at)
  {
    forall k | 0 <= k < |vars| ensures k in at <==> !hidden(vars[k].name) {
      assert k in at <==> k in before || (k == |front| && !hidden(v.name));
    }
  }

  lemma VisibleTurn(c: Config, vars: seq<Variable>, front: seq<Variable>, v: Variable, hidden: bool)
    requires vars == front + [v] && !c.showSpecial && hidden == Hidden(c)(v.name)
    ensures Visible(vars) == if hidden then Visible(front) else Visible(front) + [v]
  {
    assert vars[..|vars| - 1] == front;
  }

  /** The positions so far, and the variables at them. */
  ghost predicate PicksThese(hidden: string -> bool, vars: seq<Variable>, at: seq<nat>, these: seq<Variable>) {
    Picks(hidden, vars, at) && |these| == |at| && forall i :: 0 <= i < |at| ==> these[i] == vars[at[i]]
  }

  lemma PickTurn(hidden: string -> bool, vars: seq<Variable>, front: seq<Variable>, v: Variable, before: seq<nat>,
                 these: seq<Variable>) returns (at: seq<nat>)
    requires vars == front + [v] && PicksThese(hidden, front, before, these)
    ensures PicksThese(hidden, vars, at, if hidden(v.name) then these else these + [v])
  {
    at := if hidden(v.name) then before else before + [|front|];
    PickLast(hidden, vars, front, v, before, at);
  }

  lemma {:induction false} VisiblePicks(c: Config, hidden: string -> bool, vars: seq<Variable>) returns (at: seq<nat>)
    requires !c.showSpecial && hidden == Hidden(c)
    ensures PicksThese(hidden, vars, at, Visible(vars))
  {
    at := [];
    if vars != [] {
      var n := |vars| - 1;
      var front, v := vars[..n], vars[n];
      at := VisiblePicks(c, hidden, front);
      at := PickTurn(hidden, vars, front, v, at, Visible(front));
      VisibleTurn(c, vars, front, v, hidden(v.name));
    }
  }

  lemma FilterPicks(c: Config, vars: seq<Variable>) returns (at: seq<nat>)
    ensures Picks(Hidden(c), vars, at) && |at| == |Filtered(c, vars)|
    ensures forall i :: 0 <= i < |at| ==> Filtered(c, vars)[i] == vars[at[i]]
  {
    if c.showSpecial {
      at := PickAll(Hidden(c), vars);
    } else {
      at := VisiblePicks(c, Hidden(c), vars);
    }
  }

  lemma {:induction false} FirstValue(vars: seq<Variable>) returns (k: nat)
    ensures k <= |vars| && (forall j :: 0 <= j < k ==> vars[j].name != "value")
    ensures k < |vars| ==> vars[k].name == "value" && FieldValue(vars) == Some(vars[k].value)
    ensures k == |vars| ==> FieldValue(vars) == None
  {
    if vars == [] || vars[0].name == "value" {
      k := 0;
    } else {
      var rest := FirstValue(vars[1..]);
      k := rest + 1;
      forall j | 0 <= j < k ensures vars[j].name != "value" {
        assert j > 0 ==> vars[j] == vars[1..][j - 1];
      }
    }
  }

  lemma OpensIff(c: Config, v: Variable)
    ensures (exists k :: Opens(c, v, k)) <==> Wrapped(c, v) && Unwrapped(c, v.ref).Some?
    ensures Wrapped(c, v) && Unwrapped(c, v.ref).Some? ==>
              exists k :: Opens(c, v, k) && Unwrapped(c, v.ref).value == c.graph(v.ref).value[k].value
  {
    if Wrapped(c, v) && c.graph(v.ref).Some? {
      var k := FirstValue(c.graph(v.ref).value);
      if k < |c.graph(v.ref).value| {
        assert Opens(c, v, k);
      }
    }
  }

  lemma {:induction false} OneShows(c: Config, v: Variable, depth: int)
    ensures ShowsVariable(c, ExpandOne(c, v, depth), v, depth)
    decreases depth, 0
  {
    OpensIff(c, v);
    var n := Leaf(c, v);
    if n.ref > 0 && depth - 1 > 0 && c.graph(n.ref).Some? {
      ExpansionShowsAnswer(c, n.ref, depth - 1);
    }
  }

  /** An expansion succeeds exactly when the adapter answers for the reference, and it shows the answer. */
  lemma {:induction false} ExpansionShowsAnswer(c: Config, ref: int, depth: int)
    ensures Expand(c, ref, depth).Some? <==> c.graph(ref).Some?
    ensures Expand(c, ref, depth).Some? ==> ShowsAnswer(c, ref, Expand(c, ref, depth).value, depth)
    decreases depth, 1
  {
    if c.graph(ref).Some? {
      var vars := c.graph(ref).value;
      var kids := Expand(c, ref, depth).value;
      var at := FilterPicks(c, vars);
      forall i | 0 <= i < |kids.nodes| ensures ShowsVariable(c, kids.nodes[i], vars[at[i]], depth) {
        ExpandAllAt(c, Shown(c, vars), depth, i);
        OneShows(c, vars[at[i]], depth);
      }
      assert ShowsPicked(c, vars, at, kids, depth);
    }
  }

  // ----- coherence in depth -----

  /** The tree cut at a level: below it there are no children and nothing is marked as truncated. */
  function Cut(n: Node, level: nat): Node
    decreases n
  {
    if level == 0 then n.(children := [], truncated := false)
    else n.(children := CutAll(n.children, level - 1))
  }

  function CutAll(nodes: seq<Node>, level: nat): (r: seq<Node>)
    ensures |r| == |nodes|
    decreases nodes
  {
    seq(|nodes|, i requires 0 <= i < |nodes| => Cut(nodes[i], level))
  }

  lemma {:induction false} ExpandAllAt(c: Config, vars: seq<Variable>, depth: int, i: nat)
    requires i < |vars|
    ensures ExpandAll(c, vars, depth)[i] == ExpandOne(c, vars[i], depth)
  {
    if i < |vars| - 1 {
      ExpandAllAt(c, vars[..|vars| - 1], depth, i);
    }
  }

  lemma {:induction false} OneCoheres(c: Config, v: Variable, depth: nat)
    requires depth > 0
    ensures ExpandOne(c, v, depth) == Cut(ExpandOne(c, v, depth + 1), depth - 1)
    decreases depth, 0
  {
    var n := Leaf(c, v);
    if n.ref > 0 && depth > 1 {
      DepthCoheres(c, n.ref, depth - 1);
    } else {
      assert CutAll([], if depth > 1 then depth - 2 else 0) == [];
    }
  }

  /** Against a fixed graph, cyclic or not, expanding one level deeper and cutting that level off again
      gives the shallower expansion; in particular both fail together. */
  lemma {:induction false} DepthCoheres(c: Config, ref: int, depth: nat)
    requires depth > 0
    ensures Expand(c, ref, depth).Some? <==> Expand(c, ref, depth + 1).Some?
    ensures Expand(c, ref, depth).Some? ==>
              && Expand(c, ref, depth).value.truncated == Expand(c, ref, depth + 1).value.truncated
              && Expand(c, ref, depth).value.nodes == CutAll(Expand(c, ref, depth + 1).value.nodes, depth - 1)
    decreases depth, 1
  {
    var answer := c.graph(ref);
    if answer.Some? {
      var vars := Shown(c, answer.value);
      var deep := ExpandAll(c, vars, depth + 1);
      forall i | 0 <= i < |vars| ensures ExpandAll(c, vars, depth)[i] == CutAll(deep, depth - 1)[i] {
        ExpandAllAt(c, vars, depth, i);
        ExpandAllAt(c, vars, depth + 1, i);
        OneCoheres(c, vars[i], depth);
      }
      assert ExpandAll(c, vars, depth) == CutAll(deep, depth - 1);
    }
  }

  // ----- bounds -----

  function Max(a: nat, b: nat): nat {
    if a > b then a else b
  }

  function Height(nodes: seq<Node>): nat
    decreases nodes
  {
    if nodes == [] then 0 else Max(1 + Height(nodes[0].children), Height(nodes[1..]))
  }

  predicate Width(nodes: seq<Node>, max: nat)
    decreases nodes
  {
    |nodes| <= max && forall i :: 0 <= i < |nodes| ==> Width(nodes[i].children, max)
  }

  lemma {:induction false} HeightOfAll(nodes: seq<Node>, h: nat)
    requires forall i :: 0 <= i < |nodes| ==> 1 + Height(nodes[i].children) <= h
    ensures Height(nodes) <= h
  {
    if nodes != [] {
      HeightOfAll(nodes[1..], h);
    }
  }

  /** The expansion is no higher than its depth and no wider than maxItems anywhere; it is marked as
      truncated exactly when more entries pass the filter than are shown. */
  lemma {:induction false} ExpansionIsBounded(c: Config, ref: int, depth: nat)
    requires depth > 0 && Expand(c, ref, depth).Some?
    ensures Height(Expand(c, ref, depth).value.nodes) <= depth
    ensures Width(Expand(c, ref, depth).value.nodes, c.maxItems)
    ensures Expand(c, ref, depth).value.truncated <==>
            |Filtered(c, c.graph(ref).value)| > |Expand(c, ref, depth).value.nodes|
    decreases depth
  {
    var vars := Shown(c, c.graph(ref).value);
    var nodes := Expand(c, ref, depth).value.nodes;
    forall i | 0 <= i < |nodes| ensures 1 + Height(nodes[i].children) <= depth && Width(nodes[i].children, c.maxItems) {
      ExpandAllAt(c, vars, depth, i);
      var n := Leaf(c, vars[i]);
      if n.ref > 0 && depth > 1 && Expand(c, n.ref, depth - 1).Some? {
        ExpansionIsBounded(c, n.ref, depth - 1);
      }
    }
    HeightOfAll(nodes, depth);
  }

  predicate NoneSpecial(nodes: seq<Node>)
    decreases nodes
  {
    forall i :: 0 <= i < |nodes| ==> !IsPythonSpecial(nodes[i].name) && NoneSpecial(nodes[i].children)
  }

  /** With the filter on, no special entry shows up at any level. */
  lemma {:induction false} SpecialsAreHidden(c: Config, ref: int, depth: nat)
    requires depth > 0 && !c.showSpecial && Expand(c, ref, depth).Some?
    ensures NoneSpecial(Expand(c, ref, depth).value.nodes)
    decreases depth
  {
    var vars := Shown(c, c.graph(ref).value);
    var nodes := Expand(c, ref, depth).value.nodes;
    forall i | 0 <= i < |nodes| ensures !IsPythonSpecial(nodes[i].name) && NoneSpecial(nodes[i].children) {
      ExpandAllAt(c, vars, depth, i);
      var n := Leaf(c, vars[i]);
      if n.ref > 0 && depth > 1 && Expand(c, n.ref, depth - 1).Some? {
        SpecialsAreHidden(c, n.ref, depth - 1);
      }
    }
  }

  // ----- the number of variables requests -----

  /** The most requests an expansion may make: each entry may cost one unwrapping in Java, and one expansion. */
  function Budget(c: Config, depth: nat): nat {
    if depth == 0 then 0 else 1 + c.maxItems * ((if c.java then 1 else 0) + Budget(c, depth - 1))
  }

  function Power(m: nat, n: nat): nat {
    if n == 0 then 1 else m * Power(m, n - 1)
  }

  function PowerSum(m: nat, n: nat): nat {
    if n == 0 then 0 else PowerSum(m, n - 1) + Power(m, n - 1)
  }

  lemma {:induction false} PowerSumShift(m: nat, n: nat)
    ensures PowerSum(m, n + 1) == 1 + m * PowerSum(m, n)
  {
    if n > 0 {
      PowerSumShift(m, n - 1);
      assert m * (PowerSum(m, n - 1) + Power(m, n - 1)) == m * PowerSum(m, n - 1) + m * Power(m, n - 1);
    }
  }

  /** Outside Java the budget is 1 + m + ... + m^(depth-1). */
  lemma {:induction false} BudgetIsGeometric(c: Config, depth: nat)
    requires !c.java
    ensures Budget(c, depth) == PowerSum(c.maxItems, depth)
  {
    if depth > 0 {
      BudgetIsGeometric(c, depth - 1);
      PowerSumShift(c.maxItems, depth - 1);
    }
  }

  /** The in-place compaction: entries that pass are moved to the front of the same array. */
  method CompactInPlace(a: array<Variable>) returns (n: nat)
    modifies a
    ensures n <= a.Length && a[..n] == Visible(old(a[..]))
  {
    n := 0;
    for i := 0 to a.Length
      invariant n <= i
      invariant a[..n] == Visible(old(a[..])[..i])
      invariant a[i..] == old(a[..])[i..]
    {
      var v := a[i];
      assert v == old(a[..])[i];
      assert old(a[..])[..i + 1][..i] == old(a[..])[..i];
      if !IsPythonSpecial(v.name) {
        a[n] := v;
        n := n + 1;
      }
      assert a[i + 1..] == old(a[..])[i + 1..];
    }
    assert old(a[..])[..a.Length] == old(a[..]);
  }

  method UnwrapJavaWrapper(c: Config, ref: int) returns (r: Option<string>)
    ensures r == Unwrapped(c, ref)
  {
    var vars := c.graph(ref);
    if vars.None? {
      return None;
    }
    var fields := vars.value;
    var i := 0;
    while i < |fields|
      invariant 0 <= i <= |fields|
      invariant FieldValue(fields) == FieldValue(fields[i..])
    {
      if fields[i].name == "value" {
        return Some(fields[i].value);
      }
      i := i + 1;
    }
    r := None;
  }

  /** The adapter's answer, filtered in the array it came in. */
  method FilterAnswer(c: Config, vars: seq<Variable>) returns (src: seq<Variable>)
    ensures src == Filtered(c, vars)
  {
    src := vars;
    if !c.showSpecial {
      var a := new Variable[|vars|](i requires 0 <= i < |vars| => vars[i]);
      assert a[..] == vars;
      var n := CompactInPlace(a);
      src := a[..n];
    }
  }

  /** The requests one entry may cost. */
  function Share(c: Config, depth: int): nat {
    (if c.java then 1 else 0) + (if depth > 1 then Budget(c, depth - 1) else 0)
  }

  method ExpandEntry(c: Config, v: Variable, depth: int) returns (n: Node, requests: nat)
    ensures n == ExpandOne(c, v, depth) && ShowsVariable(c, n, v, depth)
    ensures requests <= Share(c, depth)
    decreases depth, 0
  {
    OneShows(c, v, depth);
    n, requests := Node(v.name, v.value, v.typ, v.ref, false, []), 0;
    if c.java && v.ref > 0 && IsJavaWrapperType(v.typ) {
      var prim := UnwrapJavaWrapper(c, v.ref);
      requests := 1;
      if prim.Some? {
        n := n.(value := prim.value, ref := 0);
      }
    }
    assert n == Leaf(c, v);
    if n.ref > 0 && depth - 1 > 0 {
      var kids, more := ExpandRefFiltered(c, n.ref, depth - 1);
      requests := requests + more;
      if kids.Some? {
        n := n.(children := kids.value.nodes, truncated := kids.value.truncated);
      }
    }
  }

  lemma OneMore(i: nat, share: nat)
    ensures (i + 1) * share == i * share + share
  {
  }

  lemma ExpandAllSnoc(c: Config, vars: seq<Variable>, i: nat, depth: int)
    requires i < |vars|
    ensures ExpandAll(c, vars[..i + 1], depth) == ExpandAll(c, vars[..i], depth) + [ExpandOne(c, vars[i], depth)]
  {
    assert vars[..i + 1][..i] == vars[..i];
  }

  method ExpandEntries(c: Config, src: seq<Variable>, depth: int) returns (out: seq<Node>, requests: nat)
    ensures out == ExpandAll(c, src, depth)
    ensures requests <= |src| * Share(c, depth)
    decreases depth, 1
  {
    out, requests := [], 0;
    var i := 0;
    while i < |src|
      invariant 0 <= i <= |src|
      invariant out == ExpandAll(c, src[..i], depth)
      invariant requests <= i * Share(c, depth)
    {
      var n, more := ExpandEntry(c, src[i], depth);
      ExpandAllSnoc(c, src, i, depth);
      OneMore(i, Share(c, depth));
      out, requests, i := out + [n], requests + more, i + 1;
    }
    assert src[..|src|] == src;
  }

  /** The walk itself; it counts the variables requests it makes. */
  method ExpandRefFiltered(c: Config, ref: int, depth: int) returns (r: Option<Kids>, requests: nat)
    ensures r == Expand(c, ref, depth)
    ensures (r.Some? <==> c.graph(ref).Some?) && (r.Some? ==> ShowsAnswer(c, ref, r.value, depth))
    ensures requests <= Budget(c, if depth > 0 then depth else 1)
    decreases depth, 2
  {
    var answer := c.graph(ref);
    if answer.None? {
      return None, 1;
    }
    var src := FilterAnswer(c, answer.value);
    var truncated := false;
    if |src| > c.maxItems {
      src := src[..c.maxItems];
      truncated := true;
    }
    var out, more := ExpandEntries(c, src, depth);
    BudgetCovers(c, depth, |src|);
    ExpansionShowsAnswer(c, ref, depth);
    r, requests := Some(Kids(out, truncated)), 1 + more;
  }

  lemma BudgetCovers(c: Config, depth: int, n: nat)
    requires n <= c.maxItems
    ensures 1 + n * Share(c, depth) <= Budget(c, if depth > 0 then depth else 1)
  {
    assert n * Share(c, depth) <= c.maxItems * Share(c, depth);
    if depth <= 1 {
      assert Budget(c, 0) == 0;
    }
  }

  /** What an expression evaluates to in the chosen frame. */
  datatype Value = Value(result: string, typ: string, ref: int)

  /** The answer of the `print` command. */
  datatype Printed = UsageError | AdapterFailed | Printed(root: Node)

  /** The root of the answer without its children; an expression goes before a reference. */
  function Root(expression: string, evaluate: string -> Option<Value>, ref: int): Option<Node> {
    if expression == "" then Some(Node("", "", "", ref, false, []))
    else
      var v := evaluate(expression);
      if v.None? then None else Some(Node(expression, v.value.result, v.value.typ, v.value.ref, false, []))
  }

  /** The `print` command: a depth below 1 stands for 3 and a limit below 1 for 50; a root without a reference costs no
      request. Evaluating fails if the frame or the expression does. */
  method HandlePrint(graph: Graph, java: bool, expression: string, evaluate: string -> Option<Value>, ref: int, depth: int,
                     maxItems: int, showSpecial: bool) returns (r: Printed, requests: nat)
    ensures var d := if depth <= 0 then 3 else depth;
            var c := Config(graph, java, if maxItems <= 0 then 50 else maxItems, showSpecial);
            var root := Root(expression, evaluate, ref);
            && requests <= Budget(c, d)
            && if expression == "" && ref <= 0 then r == UsageError && requests == 0
               else if root.None? then r == AdapterFailed && requests == 0
               else if root.value.ref <= 0 then r == Printed(root.value) && requests == 0
               else
                 var kids := Expand(c, root.value.ref, d);
                 r == if kids.None? then AdapterFailed
                      else Printed(root.value.(children := kids.value.nodes, truncated := kids.value.truncated))
    ensures r.UsageError? <==> expression == "" && ref <= 0
    ensures r.Printed? && expression == "" ==> r.root.name == r.root.value == r.root.typ == "" && r.root.ref == ref
    ensures r.Printed? && expression != "" ==>
              && evaluate(expression).Some? && r.root.name == expression && r.root.value == evaluate(expression).value.result
              && r.root.typ == evaluate(expression).value.typ && r.root.ref == evaluate(expression).value.ref
    ensures r.Printed? ==>
              var c := Config(graph, java, if maxItems <= 0 then 50 else maxItems, showSpecial);
              if r.root.ref > 0 then
                ShowsAnswer(c, r.root.ref, Kids(r.root.children, r.root.truncated), if depth <= 0 then 3 else depth)
              else r.root.children == [] && !r.root.truncated
  {
    requests := 0;
    if expression == "" && ref <= 0 {
      return UsageError, 0;
    }
    var d := if depth <= 0 then 3 else depth;
    var c := Config(graph, java, if maxItems <= 0 then 50 else maxItems, showSpecial);
    var root := Node("", "", "", ref, false, []);
    if expression != "" {
      var v := evaluate(expression);
      if v.None? {
        return AdapterFailed, 0;
      }
      root := Node(expression, v.value.result, v.value.typ, v.value.ref, false, []);
    }
    if root.ref > 0 {
      var kids;
      kids, requests := ExpandRefFiltered(c, root.ref, d);
      if kids.None? {
        return AdapterFailed, requests;
      }
      root := root.(children := kids.value.nodes, truncated := kids.value.truncated);
    }
    r := Printed(root);
  }
}
