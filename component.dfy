/**
 * Component (obnamlib/component.py): a piece of data inside an object. A
 * component has a kind, and the kind decides whether it holds a string or a
 * list of child components. Reading or writing the wrong one raises.
 *
 * Which kinds are string-valued and which are composite is decided by the
 * kind registry obnamlib.cmp_kinds, which is not part of this model: it
 * enters as a KindRegistry value carried by each component.
 */
module Components {
  import opened Outcomes

  type Kind = int

  /** The plain, reference and composite kinds of the registry. */
  datatype KindRegistry = KindRegistry(plain: set<Kind>, ref: set<Kind>, composite: set<Kind>)
  {
    /** is_plain(kind) or is_ref(kind): the kind carries a string. */
    predicate IsStringValued(k: Kind)
    {
      k in plain || k in ref
    }

    /** is_composite(kind): the kind carries children. */
    predicate IsComposite(k: Kind)
    {
      k in composite
    }
  }

  /** The three obnamlib.Exception messages of the class. */
  datatype Error =
    | NotStringValued  // "Using string value of non-plain component."
    | NotComposite     // "Using children of non-composite Component."
    | NotAString       // "Cannot set string value to type ..."

  /** A value handed to set_string: a str, or a value of some other type. */
  datatype Value = Str(s: string) | OtherType

  // ---------------------------------------------------------------------
  // Specification of the child queries
  // ---------------------------------------------------------------------

  /** The children of kind k, in their original order. */
  function Filter(cs: seq<Component>, k: Kind): seq<Component>
  {
    if cs == [] then [] else (if cs[0].kind == k then [cs[0]] else []) + Filter(cs[1..], k)
  }

  /** The children of any other kind, in their original order. */
  function Reject(cs: seq<Component>, k: Kind): seq<Component>
  {
    if cs == [] then [] else (if cs[0].kind != k then [cs[0]] else []) + Reject(cs[1..], k)
  }

  /** list.remove(x): drop the first element identical to x. */
  function RemoveFirst(s: seq<Component>, x: Component): seq<Component>
  {
    if s == [] then [] else if s[0] == x then s[1..] else [s[0]] + RemoveFirst(s[1..], x)
  }

  /** cs with its first n elements of kind k removed. */
  function RemoveMatches(cs: seq<Component>, k: Kind, n: nat): seq<Component>
  {
    if cs == [] then []
    else if cs[0].kind == k && n > 0 then RemoveMatches(cs[1..], k, n - 1)
    else [cs[0]] + RemoveMatches(cs[1..], k, n)
  }

  /** Filter keeps exactly the elements of kind k. */
  lemma {:induction false} FilterMembers(cs: seq<Component>, k: Kind)
    ensures forall c :: c in Filter(cs, k) <==> c in cs && c.kind == k
    ensures forall i :: 0 <= i < |Filter(cs, k)| ==> Filter(cs, k)[i] in cs && Filter(cs, k)[i].kind == k
  {
    if cs != [] {
      FilterMembers(cs[1..], k);
      forall c
        ensures c in Filter(cs, k) <==> c in cs && c.kind == k
      {
        assert c in cs <==> c == cs[0] || c in cs[1..];
      }
      forall i | 0 <= i < |Filter(cs, k)|
        ensures Filter(cs, k)[i] in cs && Filter(cs, k)[i].kind == k
      {
        assert Filter(cs, k)[i] in Filter(cs, k);
      }
    }
  }

  /** Filter keeps the order of the children: it distributes over
      concatenation. */
  lemma {:induction false} FilterConcat(a: seq<Component>, b: seq<Component>, k: Kind)
    ensures Filter(a + b, k) == Filter(a, k) + Filter(b, k)
  {
    if a == [] {
      assert a + b == b;
    } else {
      FilterConcat(a[1..], b, k);
      var head := if a[0].kind == k then [a[0]] else [];
      FilterCons(a, b, k);
      assert Filter(a, k) == head + Filter(a[1..], k);
      ConcatAssoc(head, Filter(a[1..], k), Filter(b, k));
    }
  }

  lemma FilterCons(a: seq<Component>, b: seq<Component>, k: Kind)
    requires a != []
    ensures Filter(a + b, k) == (if a[0].kind == k then [a[0]] else []) + Filter(a[1..] + b, k)
  {
    assert (a + b)[1..] == a[1..] + b;
  }

  lemma ConcatAssoc(x: seq<Component>, y: seq<Component>, z: seq<Component>)
    ensures x + (y + z) == (x + y) + z
  {
  }

  /** The first element of Filter is the first child of kind k, and Filter is
      empty exactly when no child has kind k. */
  lemma {:induction false} FilterHead(cs: seq<Component>, k: Kind)
    ensures Filter(cs, k) != [] <==> exists i :: 0 <= i < |cs| && cs[i].kind == k
    ensures Filter(cs, k) != [] ==>
      exists i :: 0 <= i < |cs| && cs[i] == Filter(cs, k)[0] && cs[i].kind == k
        && forall j :: 0 <= j < i ==> cs[j].kind != k
  {
    if cs != [] {
      FilterHead(cs[1..], k);
      if cs[0].kind != k && Filter(cs, k) != [] {
        var i :| 0 <= i < |cs[1..]| && cs[1..][i] == Filter(cs[1..], k)[0] && cs[1..][i].kind == k
          && forall j :: 0 <= j < i ==> cs[1..][j].kind != k;
        assert cs[i + 1] == Filter(cs, k)[0];
        assert forall j :: 0 <= j < i + 1 ==> cs[j].kind != k by {
          forall j | 0 <= j < i + 1 ensures cs[j].kind != k {
            if j > 0 { assert cs[j] == cs[1..][j - 1]; }
          }
        }
      }
      if exists i :: 0 <= i < |cs| && cs[i].kind == k {
        var i :| 0 <= i < |cs| && cs[i].kind == k;
        if i > 0 { assert cs[1..][i - 1].kind == k; }
      }
    }
  }

  /** Reject keeps exactly the elements of another kind. */
  lemma {:induction false} RejectMembers(cs: seq<Component>, k: Kind)
    ensures forall c :: c in Reject(cs, k) <==> c in cs && c.kind != k
  {
    if cs != [] {
      RejectMembers(cs[1..], k);
      forall c
        ensures c in Reject(cs, k) <==> c in cs && c.kind != k
      {
        assert c in cs <==> c == cs[0] || c in cs[1..];
      }
    }
  }

  /** What extract takes and what it leaves are, together, the old
      children. */
  lemma {:induction false} ExtractPartition(cs: seq<Component>, k: Kind)
    ensures multiset(Filter(cs, k)) + multiset(Reject(cs, k)) == multiset(cs)
  {
    if cs != [] {
      var rest := cs[1..];
      ExtractPartition(rest, k);
      assert cs == [cs[0]] + rest;
      assert multiset(cs) == multiset{cs[0]} + multiset(rest);
    }
  }

  /** Nothing of kind k is left after extract. */
  lemma {:induction false} RejectLeavesNoMatch(cs: seq<Component>, k: Kind)
    ensures Filter(Reject(cs, k), k) == []
  {
    if cs != [] {
      RejectLeavesNoMatch(cs[1..], k);
      if cs[0].kind != k {
        var r := Reject(cs, k);
        assert r == [cs[0]] + Reject(cs[1..], k);
        assert r[0] == cs[0] && r[1..] == Reject(cs[1..], k);
        assert Filter(r, k) == Filter(r[1..], k);
      } else {
        assert Reject(cs, k) == Reject(cs[1..], k);
      }
    }
  }

  lemma {:induction false} RemoveNoMatches(cs: seq<Component>, k: Kind)
    ensures RemoveMatches(cs, k, 0) == cs
  {
    if cs != [] {
      RemoveNoMatches(cs[1..], k);
    }
  }

  /** After the first i matches are gone, list.remove of match i finds it
      (no ValueError) and removes exactly that occurrence: an earlier
      occurrence of the same object would have been an earlier match. */
  lemma {:induction false} RemoveNextMatch(cs: seq<Component>, k: Kind, i: nat)
    requires i < |Filter(cs, k)|
    ensures Filter(cs, k)[i] in RemoveMatches(cs, k, i)
    ensures RemoveFirst(RemoveMatches(cs, k, i), Filter(cs, k)[i]) == RemoveMatches(cs, k, i + 1)
  {
    var rest := cs[1..];
    if cs[0].kind == k {
      if i == 0 {
        RemoveNoMatches(cs, k);
        RemoveNoMatches(rest, k);
      } else {
        RemoveNextMatch(rest, k, i - 1);
      }
    } else {
      RemoveNextMatch(rest, k, i);
      FilterMembers(rest, k);
      assert Filter(rest, k)[i] in Filter(rest, k);
    }
  }

  lemma {:induction false} RemoveAllMatches(cs: seq<Component>, k: Kind)
    ensures RemoveMatches(cs, k, |Filter(cs, k)|) == Reject(cs, k)
  {
    if cs != [] {
      RemoveAllMatches(cs[1..], k);
    }
  }

  /** The strings of a list of components, raising if one of them is not
      string-valued. */
  function Strings(cs: seq<Component>): (r: Result<seq<string>, Error>)
    reads set c | c in cs
    ensures r.Ok? <==> forall i :: 0 <= i < |cs| ==> cs[i].kinds.IsStringValued(cs[i].kind)
    ensures r.Ok? ==> |r.value| == |cs| && forall i :: 0 <= i < |cs| ==> r.value[i] == cs[i].str
    ensures r.Err? ==> r.error == NotStringValued
  {
    if cs == [] then Ok([])
    else if !cs[0].kinds.IsStringValued(cs[0].kind) then Err(NotStringValued)
    else
      match Strings(cs[1..])
      case Err(e) => Err(e)
      case Ok(rest) => Ok([cs[0].str] + rest)
  }

  class Component {
    const kinds: KindRegistry
    const kind: Kind
    var str: string
    var children: seq<Component>

    constructor Make(kinds: KindRegistry, kind: Kind, str: string, children: seq<Component>)
      ensures this.kinds == kinds && this.kind == kind
      ensures this.str == str && this.children == children
    {
      this.kinds := kinds;
      this.kind := kind;
      this.str := str;
      this.children := children;
    }

    /** __init__: a string may be given only to a string-valued kind and
        children only to a composite kind; what is not given defaults to the
        empty string and the empty list. */
    static method New(kinds: KindRegistry, kind: Kind, initial: Option<string>, children: Option<seq<Component>>)
      returns (r: Result<Component, Error>)
      ensures r.Err? <==>
        (initial.Some? && !kinds.IsStringValued(kind)) || (children.Some? && !kinds.IsComposite(kind))
      ensures r.Err? ==>
        r.error == (if initial.Some? && !kinds.IsStringValued(kind) then NotStringValued else NotComposite)
      ensures r.Ok? ==> fresh(r.value) && r.value.kinds == kinds && r.value.kind == kind
      ensures r.Ok? ==> r.value.str == (if initial.Some? then initial.value else "")
      ensures r.Ok? ==> r.value.children == (if children.Some? then children.value else [])
    {
      if initial.Some? && !kinds.IsStringValued(kind) {
        return Err(NotStringValued);
      }
      if children.Some? && !kinds.IsComposite(kind) {
        return Err(NotComposite);
      }
      var s := if initial.Some? then initial.value else "";
      var cs := if children.Some? then children.value else [];
      var c := new Component.Make(kinds, kind, s, cs);
      r := Ok(c);
    }

    /** get_string: the string, for a plain or reference kind only. */
    function GetString(): (r: Result<string, Error>)
      reads this
      ensures r.Ok? <==> kinds.IsStringValued(kind)
      ensures r.Ok? ==> r.value == str
      ensures r.Err? ==> r.error == NotStringValued
    {
      if kinds.IsStringValued(kind) then Ok(str) else Err(NotStringValued)
    }

    /** set_string: the kind is checked first, then the type of the value;
        on success the string is replaced and the children are untouched. */
    method SetString(v: Value) returns (r: Outcome<Error>)
      modifies this
      ensures r.Pass? <==> kinds.IsStringValued(kind) && v.Str?
      ensures r.Fail? ==> r.error == (if !kinds.IsStringValued(kind) then NotStringValued else NotAString)
      ensures str == (if r.Pass? then v.s else old(str))
      ensures children == old(children)
    {
      if !kinds.IsStringValued(kind) {
        return Fail(NotStringValued);
      }
      if !v.Str? {
        return Fail(NotAString);
      }
      str := v.s;
      r := Pass;
    }

    /** get_children: the children, for a composite kind only. */
    function GetChildren(): (r: Result<seq<Component>, Error>)
      reads this
      ensures r.Ok? <==> kinds.IsComposite(kind)
      ensures r.Ok? ==> r.value == children
      ensures r.Err? ==> r.error == NotComposite
    {
      if kinds.IsComposite(kind) then Ok(children) else Err(NotComposite)
    }

    /** set_children: replace the children of a composite component. */
    method SetChildren(cs: seq<Component>) returns (r: Outcome<Error>)
      modifies this
      ensures r.Pass? <==> kinds.IsComposite(kind)
      ensures r.Fail? ==> r.error == NotComposite
      ensures children == (if r.Pass? then cs else old(children))
      ensures str == old(str)
    {
      if !kinds.IsComposite(kind) {
        return Fail(NotComposite);
      }
      children := cs;
      r := Pass;
    }

    /** find: the children of kind k, in order; raises on a non-composite
        component. */
    function Find(k: Kind): (r: Result<seq<Component>, Error>)
      reads this
      ensures r.Ok? <==> kinds.IsComposite(kind)
      ensures r.Err? ==> r.error == NotComposite
      ensures r.Ok? ==> forall i :: 0 <= i < |r.value| ==> r.value[i] in children && r.value[i].kind == k
      ensures r.Ok? ==> forall i :: 0 <= i < |children| && children[i].kind == k ==> children[i] in r.value
      ensures r.Ok? ==> r.value == Filter(children, k)
    {
      FilterMembers(children, k);
      if kinds.IsComposite(kind) then Ok(Filter(children, k)) else Err(NotComposite)
    }

    /** find_strings: the strings of what find returns, in the same order;
        raises if one of them is not string-valued. */
    function FindStrings(k: Kind): (r: Result<seq<string>, Error>)
      reads this, set c | c in children
      ensures r.Ok? <==> (kinds.IsComposite(kind) &&
        forall i :: 0 <= i < |children| && children[i].kind == k ==> children[i].kinds.IsStringValued(k))
      ensures r.Ok? ==> (|r.value| == |Filter(children, k)| &&
        forall i :: 0 <= i < |r.value| ==> r.value[i] == Filter(children, k)[i].str)
    {
      FilterMembers(children, k);
      match Find(k)
      case Err(e) => Err(e)
      case Ok(list) => Strings(list)
    }

    /** first: the first child of kind k, or None. */
    function First(k: Kind): (r: Result<Option<Component>, Error>)
      reads this
      ensures r.Ok? <==> kinds.IsComposite(kind)
      ensures r.Err? ==> r.error == NotComposite
      ensures r.Ok? ==> (r.value.Some? <==> exists i :: 0 <= i < |children| && children[i].kind == k)
      ensures r.Ok? && r.value.Some? ==>
        exists i :: 0 <= i < |children| && children[i] == r.value.value && children[i].kind == k
          && forall j :: 0 <= j < i ==> children[j].kind != k
    {
      FilterHead(children, k);
      match Find(k)
      case Err(e) => Err(e)
      case Ok(list) => Ok(if list != [] then Some(list[0]) else None)
    }

    /** first_string: the string of the first child of kind k, or None;
        raises if that child is not string-valued. */
    function FirstString(k: Kind): (r: Result<Option<string>, Error>)
      reads this, set c | c in children
      ensures (kinds.IsComposite(kind) &&
        forall i :: 0 <= i < |children| && children[i].kind == k ==> children[i].kinds.IsStringValued(k)) ==> r.Ok?
      ensures !kinds.IsComposite(kind) ==> r == Err(NotComposite)
      ensures kinds.IsComposite(kind) ==>
        (r.Err? <==> (exists i :: 0 <= i < |children| && children[i].kind == k &&
                        (forall j :: 0 <= j < i ==> children[j].kind != k) && !children[i].kinds.IsStringValued(k)))
      ensures kinds.IsComposite(kind) && r.Err? ==> r.error == NotStringValued
      ensures r.Ok? ==> (r.value.Some? <==> exists i :: 0 <= i < |children| && children[i].kind == k)
      ensures r.Ok? && r.value.Some? ==>
        exists i :: 0 <= i < |children| && children[i].str == r.value.value && children[i].kind == k
          && forall j :: 0 <= j < i ==> children[j].kind != k
    {
      match First(k)
      case Err(e) => Err(e)
      case Ok(None) => Ok(None)
      case Ok(Some(c)) => if c.kinds.IsStringValued(c.kind) then Ok(Some(c.str)) else Err(NotStringValued)
    }

    /** extract: remove the children of kind k one by one with list.remove,
        and return them as find returned them. */
    method Extract(k: Kind) returns (r: Result<seq<Component>, Error>)
      modifies this
      ensures r.Ok? <==> kinds.IsComposite(kind)
      ensures r.Err? ==> r.error == NotComposite && children == old(children)
      ensures r.Ok? ==> r.value == Filter(old(children), k)
      ensures r.Ok? ==> children == Reject(old(children), k)
      ensures r.Ok? ==> Filter(children, k) == []
      ensures str == old(str)
    {
      r := Find(k);
      if r.Err? {
        return;
      }
      var list := r.value;
      ghost var cs := children;
      RemoveNoMatches(cs, k);
      var i := 0;
      while i < |list|
        invariant 0 <= i <= |list|
        invariant list == Filter(cs, k)
        invariant children == RemoveMatches(cs, k, i)
        invariant str == old(str)
      {
        RemoveNextMatch(cs, k, i);
        assert list[i] in children;
        children := RemoveFirst(children, list[i]);
        i := i + 1;
      }
      RemoveAllMatches(cs, k);
      RejectLeavesNoMatch(cs, k);
    }
  }
}
