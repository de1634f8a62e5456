/** What a lookup finds, told by positions in the stack of contexts and by the members of objects. */
module ValueLookup {
  import opened Base
  import opened Template
  import opened RenderTrace
  import opened NodeViews

  // ---- Objects and contexts ---------------------------------------------------------------------------

  predicate HasMember(d: Data, key: Bytes) {
    d.Object? && key in d.entries
  }

  predicate IsMember(d: Data, key: Bytes, value: Data) {
    d.Object? && key in d.entries && d.entries[key] == value
  }

  /** Context i has the key, and no context inside it does. */
  predicate Innermost(stack: seq<Data>, key: Bytes, i: nat) {
    i < |stack| && HasMember(stack[i], key) && forall j :: i < j < |stack| ==> !HasMember(stack[j], key)
  }

  /** A name is looked up from the innermost context outwards: the innermost that has it gives the value, and only where no
      context has it there is none. */
  lemma {:induction false} InnermostWins(stack: seq<Data>, key: Bytes)
    ensures forall i: nat :: Innermost(stack, key, i) ==> FindInStack(stack, key) == Some(stack[i].entries[key])
    ensures FindInStack(stack, key).None? <==> forall i :: 0 <= i < |stack| ==> !HasMember(stack[i], key)
    ensures FindInStack(stack, key).Some? <==> exists i: nat :: Innermost(stack, key, i)
    decreases |stack|
  {
    if stack != [] {
      var last := |stack| - 1;
      InnermostWins(stack[..last], key);
      if HasMember(stack[last], key) {
        assert Innermost(stack, key, last);
      } else {
        forall i: nat
          ensures Innermost(stack, key, i) <==> Innermost(stack[..last], key, i)
        {
        }
        assert forall i :: 0 <= i < |stack[..last]| ==> stack[..last][i] == stack[i];
      }
    }
  }

  // ---- Dotted names -----------------------------------------------------------------------------------

  /** The first component is resolved in the innermost context that has it; each later one is a member of the object reached
      so far, and no context further out is tried again. */
  ghost predicate Reaches(stack: seq<Data>, parts: seq<Bytes>, chain: seq<Data>) {
    && |chain| == |parts| > 0
    && (exists i: nat :: Innermost(stack, parts[0], i) && chain[0] == stack[i].entries[parts[0]])
    && forall k :: 0 < k < |parts| ==> IsMember(chain[k - 1], parts[k], chain[k])
  }

  predicate Steps(from: Data, path: seq<Bytes>, chain: seq<Data>) {
    |chain| == |path| + 1 && chain[0] == from && forall k :: 0 < k < |chain| ==> IsMember(chain[k - 1], path[k - 1], chain[k])
  }

  lemma {:induction false} PathSteps(d: Data, path: seq<Bytes>) returns (chain: seq<Data>)
    requires FindPath(d, path).Some?
    ensures Steps(d, path, chain) && FindPath(d, path) == Some(chain[|path|])
  {
    if path == [] {
      chain := [d];
    } else {
      var next := FindInMap(d, path[0]).value;
      var rest := PathSteps(next, path[1..]);
      chain := [d] + rest;
      forall k | 0 < k < |chain|
        ensures IsMember(chain[k - 1], path[k - 1], chain[k])
      {
        if k > 1 {
          assert IsMember(rest[k - 2], path[1..][k - 2], rest[k - 1]);
        }
      }
    }
  }

  lemma {:induction false} StepsFound(d: Data, path: seq<Bytes>, chain: seq<Data>)
    requires Steps(d, path, chain)
    ensures FindPath(d, path) == Some(chain[|path|])
  {
    if path != [] {
      assert IsMember(chain[0], path[0], chain[1]);
      forall k | 0 < k < |chain[1..]|
        ensures IsMember(chain[1..][k - 1], path[1..][k - 1], chain[1..][k])
      {
        assert IsMember(chain[k], path[k], chain[k + 1]);
      }
      StepsFound(chain[1], path[1..], chain[1..]);
    }
  }

  lemma {:induction false} StackAndPath(stack: seq<Data>, parts: seq<Bytes>, value: Data)
    requires parts != []
    ensures var first := FindInStack(stack, parts[0]);
            (first.Some? && FindPath(first.value, parts[1..]) == Some(value))
            <==> exists chain :: Reaches(stack, parts, chain) && chain[|parts| - 1] == value
  {
    InnermostWins(stack, parts[0]);
    var first := FindInStack(stack, parts[0]);
    if first.Some? && FindPath(first.value, parts[1..]) == Some(value) {
      var chain := PathSteps(first.value, parts[1..]);
      assert forall k :: 0 < k < |parts| ==> parts[1..][k - 1] == parts[k];
      assert Reaches(stack, parts, chain);
    }
    forall chain | Reaches(stack, parts, chain) && chain[|parts| - 1] == value
      ensures first.Some? && FindPath(first.value, parts[1..]) == Some(value)
    {
      assert forall k :: 0 < k < |parts| ==> parts[1..][k - 1] == parts[k];
      assert Steps(chain[0], parts[1..], chain);
      StepsFound(chain[0], parts[1..], chain);
    }
  }

  // ---- Lookup -----------------------------------------------------------------------------------------

  /** The tags whose names can have dots; the name of a partial is looked up as a whole. */
  predicate Dotted(kind: Type) {
    kind.TypeVariable? || kind.TypeSection? || kind.TypeNegate? || kind.TypeStop? || kind.TypeTag?
  }

  /** The components of a name between its dots. */
  predicate Components(name: Bytes, parts: seq<Bytes>) {
    parts != [] && Join(parts) == name && Dotless(parts)
  }

  /** What the name of a node means among these contexts: `.` is the current one; a strict name is a member of the current one;
      any other name is resolved by its components. */
  ghost predicate Resolves(n: Node, stack: seq<Data>, strict: bool, value: Data)
    requires n.Node? && n.data.Some? && stack != []
  {
    var name, current := n.data.value, stack[|stack| - 1];
    if name == [DOT] then value == current
    else if strict then IsMember(current, name, value)
    else if Dotted(n.kind) then
      exists parts, chain :: Components(name, parts) && Reaches(stack, parts, chain) && chain[|parts| - 1] == value
    else exists i: nat :: Innermost(stack, name, i) && value == stack[i].entries[name]
  }

  lemma {:induction false} DottedKinds(kind: Type)
    requires !kind.TypeOther?
    ensures Dotted(kind) <==> HasDot(kind)
  {
  }

  lemma {:induction false} ComponentsAre(name: Bytes, parts: seq<Bytes>)
    ensures Components(name, parts) <==> parts == Split(name, 0)
  {
    hide Split, Join, Dotless;
    assert name[0..] == name;
    SplitJoins(name, 0);
    if Components(name, parts) {
      SplitUnique(parts, name, 0);
    }
  }

  /** A name without dots is its only component. */
  lemma {:induction false} NoDots(name: Bytes)
    requires IndexOf(name, DOT, 0).None?
    ensures Split(name, 0) == [name]
  {
    assert name[0..] == name;
  }

  /** The lookup finds a value exactly where the name resolves to it. */
  lemma {:induction false} LookupResolves(n: Node, stack: seq<Data>, strict: bool, value: Data)
    requires n.Node? && n.data.Some? && stack != [] && !n.kind.TypeOther?
    ensures Lookup(n, stack, strict) == Some(value) <==> Resolves(n, stack, strict, value)
  {
    hide FindInStack, FindPath, Split, Components, Reaches, Innermost, HasDot;
    var name := n.data.value;
    if name != [DOT] && !strict {
      DottedKinds(n.kind);
      if Dotted(n.kind) {
        var parts := Split(name, 0);
        StackAndPath(stack, parts, value);
        ComponentsAre(name, parts);
        forall ps | Components(name, ps)
          ensures ps == parts
        {
          ComponentsAre(name, ps);
        }
        if IndexOf(name, DOT, 0).None? {
          NoDots(name);
          assert parts[1..] == [];
          NoPath(FindInStack(stack, name));
        }
      } else {
        InnermostWins(stack, name);
      }
    }
  }

  lemma {:induction false} AllResolve(n: Node, stack: seq<Data>, strict: bool)
    requires n.Node? && n.data.Some? && stack != [] && !n.kind.TypeOther?
    ensures forall value :: Lookup(n, stack, strict) == Some(value) <==> Resolves(n, stack, strict, value)
  {
    hide Lookup, Resolves;
    forall value
      ensures Lookup(n, stack, strict) == Some(value) <==> Resolves(n, stack, strict, value)
    {
      LookupResolves(n, stack, strict, value);
    }
  }

  lemma {:induction false} NoPath(found: Option<Data>)
    ensures found.Some? ==> FindPath(found.value, []) == found
  {
  }

  /** Both stored formats charge a node for the components of its name, if names of its type can have dots. */
  lemma {:induction false} PartsCharged(n: Node)
    requires n.Node? && n.data.Some? && !n.kind.TypeOther?
    ensures if Dotted(n.kind) then forall parts :: Components(n.data.value, parts) ==> NodeParts(n) == |parts|
            else NodeParts(n) == 0
  {
    hide Components, HasDot, Split;
    DottedKinds(n.kind);
    var name := n.data.value;
    assert name[0..] == name;
    ComponentsCharged(name, 0);
    forall parts | Components(name, parts)
      ensures |parts| == |Split(name, 0)|
    {
      ComponentsAre(name, parts);
    }
  }
}
