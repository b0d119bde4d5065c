/**
 * A parsed URL and the `set`/`delete` operations of its `searchParams`
 * (the URLSearchParams interface, section 6.2 of the WHATWG URL Standard).
 * Text serialization and percent-encoding are not modelled: a URL is its
 * base (scheme, host, path) together with its list of name-value pairs.
 */
module UrlSearchParams {

  type Param = (string, string)

  datatype Url = Url(base: string, params: seq<Param>)

  /** True when some pair in `l` is named `name`. */
  predicate HasName(l: seq<Param>, name: string)
  {
    l != [] && (l[0].0 == name || HasName(l[1..], name))
  }

  /** The pairs of `l` named `name`, in order. */
  function Named(l: seq<Param>, name: string): (r: seq<Param>)
    ensures r == [] <==> !HasName(l, name)
    ensures forall i :: 0 <= i < |r| ==> r[i].0 == name
  {
    if l == [] then []
    else if l[0].0 == name then [l[0]] + Named(l[1..], name)
    else Named(l[1..], name)
  }

  /** Index of the first pair named `name`. */
  function FirstIndex(l: seq<Param>, name: string): (i: nat)
    requires HasName(l, name)
    ensures i < |l| && l[i].0 == name
    ensures forall j :: 0 <= j < i ==> l[j].0 != name
  {
    if l[0].0 == name then 0 else 1 + FirstIndex(l[1..], name)
  }

  /** `delete(name)`: remove all pairs whose name is `name`; every other name's pairs stay as they were. */
  function Delete(l: seq<Param>, name: string): (r: seq<Param>)
    ensures !HasName(r, name)
    ensures forall n {:trigger Named(r, n)} :: n != name ==> Named(r, n) == Named(l, n)
    ensures !HasName(l, name) ==> r == l
  {
    if l == [] then []
    else if l[0].0 == name then Delete(l[1..], name)
    else [l[0]] + Delete(l[1..], name)
  }

  /**
   * `set(name, value)`: if a pair named `name` exists, the first one takes
   * `value` and the later ones are removed; otherwise the pair is appended.
   */
  function Set(l: seq<Param>, name: string, value: string): (r: seq<Param>)
    ensures HasName(l, name) ==>
      var i := FirstIndex(l, name);
      && i < |r| && r[..i] == l[..i] && r[i] == (name, value)
      && r[i + 1..] == Delete(l[i + 1..], name)
    ensures !HasName(l, name) ==> r == l + [(name, value)]
    ensures Named(r, name) == [(name, value)]
    ensures forall n {:trigger Named(r, n)} :: n != name ==> Named(r, n) == Named(l, n)
  {
    if !HasName(l, name) then
      NamedAppend(l, (name, value));
      l + [(name, value)]
    else
      SetFirst(l, name, value)
  }

  /** The replacing case of `set`, walking to the first pair named `name`. */
  function SetFirst(l: seq<Param>, name: string, value: string): (r: seq<Param>)
    requires HasName(l, name)
    ensures var i := FirstIndex(l, name);
      && i < |r| && r[..i] == l[..i] && r[i] == (name, value)
      && r[i + 1..] == Delete(l[i + 1..], name)
    ensures Named(r, name) == [(name, value)]
    ensures forall n {:trigger Named(r, n)} :: n != name ==> Named(r, n) == Named(l, n)
  {
    if l[0].0 == name then
      var r := [(name, value)] + Delete(l[1..], name);
      assert r[1..] == Delete(l[1..], name);
      r
    else
      var t := SetFirst(l[1..], name, value);
      var r := [l[0]] + t;
      SetFirstStep(l, name, t, r);
      assert r[1..] == t;
      r
  }

  lemma SetFirstStep(l: seq<Param>, name: string, t: seq<Param>, r: seq<Param>)
    requires HasName(l, name) && l[0].0 != name && r == [l[0]] + t
    requires var i := FirstIndex(l[1..], name);
      && i < |t| && t[..i] == l[1..][..i] && t[i].0 == name
      && t[i + 1..] == Delete(l[1..][i + 1..], name)
    ensures var i := FirstIndex(l, name);
      && i < |r| && r[..i] == l[..i] && r[i] == t[i - 1]
      && r[i + 1..] == Delete(l[i + 1..], name)
  {
    var i := FirstIndex(l, name);
    assert i == 1 + FirstIndex(l[1..], name);
    assert r[1..] == t;
    assert l[1..][i..] == l[i + 1..];
    assert r[i + 1..] == t[i..];
    assert r[..i] == [l[0]] + t[..i - 1];
    assert l[..i] == [l[0]] + l[1..][..i - 1];
  }

  lemma {:induction false} NamedAppend(l: seq<Param>, p: Param)
    ensures forall n {:trigger Named(l + [p], n)} :: Named(l + [p], n) == Named(l, n) + Named([p], n)
    decreases |l|
  {
    if l != [] {
      NamedAppend(l[1..], p);
      assert (l + [p])[1..] == l[1..] + [p];
    }
  }

  /** `set` of a name that already occurs exactly once, with the same value, changes nothing. */
  lemma {:induction false} SetPresent(l: seq<Param>, name: string, value: string)
    requires Named(l, name) == [(name, value)]
    ensures Set(l, name, value) == l
    decreases |l|
  {
    assert HasName(l, name);
    if l[0].0 == name {
      assert !HasName(l[1..], name);
      assert [l[0]] + l[1..] == l;
    } else {
      SetPresent(l[1..], name, value);
      assert HasName(l[1..], name);
      assert [l[0]] + l[1..] == l;
    }
  }

  lemma {:induction false} DeleteConcat(a: seq<Param>, b: seq<Param>, name: string)
    ensures Delete(a + b, name) == Delete(a, name) + Delete(b, name)
    decreases |a|
  {
    if a != [] {
      assert (a + b)[1..] == a[1..] + b;
      DeleteConcat(a[1..], b, name);
      if a[0].0 != name {
        assert Delete(a + b, name) == [a[0]] + Delete(a[1..] + b, name);
        assert Delete(a, name) == [a[0]] + Delete(a[1..], name);
        assert [a[0]] + (Delete(a[1..], name) + Delete(b, name)) == ([a[0]] + Delete(a[1..], name)) + Delete(b, name);
      }
    } else {
      assert a + b == b;
    }
  }

  /** `delete` is a filter: it works pair by pair, so the pairs it keeps stay in their order. */
  lemma DeleteAppend(a: seq<Param>, b: seq<Param>, name: string)
    ensures Delete(a + b, name) == Delete(a, name) + Delete(b, name)
    ensures forall p {:trigger Delete([p], name)} :: Delete([p], name) == if p.0 == name then [] else [p]
  {
    DeleteConcat(a, b, name);
    forall p ensures Delete([p], name) == if p.0 == name then [] else [p] {
      assert [p][1..] == [];
    }
  }

  /** No name occurs twice. */
  predicate UniqueNames(l: seq<Param>)
  {
    l == [] || (!HasName(l[1..], l[0].0) && UniqueNames(l[1..]))
  }

  /** Every pair named `name` takes `value`, each in its place. */
  function Replace(l: seq<Param>, name: string, value: string): (r: seq<Param>)
    ensures |r| == |l|
    ensures forall i :: 0 <= i < |l| ==> r[i] == if l[i].0 == name then (name, value) else l[i]
  {
    if l == [] then []
    else
      var t := Replace(l[1..], name, value);
      assert forall i :: 0 < i < |l| ==> l[1..][i - 1] == l[i];
      [if l[0].0 == name then (name, value) else l[0]] + t
  }

  lemma {:induction false} ReplaceNames(l: seq<Param>, name: string, value: string, n: string)
    ensures HasName(Replace(l, name, value), n) == HasName(l, n)
    decreases |l|
  {
    if l != [] {
      ReplaceNames(l[1..], name, value, n);
      assert Replace(l, name, value)[1..] == Replace(l[1..], name, value);
    }
  }

  lemma {:induction false} ReplaceUnique(l: seq<Param>, name: string, value: string)
    requires UniqueNames(l)
    ensures UniqueNames(Replace(l, name, value))
    decreases |l|
  {
    if l != [] {
      ReplaceUnique(l[1..], name, value);
      ReplaceNames(l[1..], name, value, l[0].0);
      assert Replace(l, name, value)[1..] == Replace(l[1..], name, value);
    }
  }

  lemma {:induction false} ReplaceAbsent(l: seq<Param>, name: string, value: string)
    requires !HasName(l, name)
    ensures Replace(l, name, value) == l
    decreases |l|
  {
    if l != [] {
      ReplaceAbsent(l[1..], name, value);
      assert Replace(l, name, value) == [l[0]] + Replace(l[1..], name, value);
    }
  }

  /** When names are unique, `set` of a present name replaces its one pair in place. */
  lemma {:induction false} SetReplaces(l: seq<Param>, name: string, value: string)
    requires UniqueNames(l) && HasName(l, name)
    ensures Set(l, name, value) == Replace(l, name, value)
    decreases |l|
  {
    if l[0].0 == name {
      ReplaceAbsent(l[1..], name, value);
      assert Replace(l, name, value) == [(name, value)] + Replace(l[1..], name, value);
    } else {
      SetReplaces(l[1..], name, value);
      assert Replace(l, name, value) == [l[0]] + Replace(l[1..], name, value);
    }
  }

  lemma {:induction false} DeleteNames(l: seq<Param>, name: string, n: string)
    ensures HasName(Delete(l, name), n) <==> HasName(l, n) && n != name
    decreases |l|
  {
    if l != [] {
      DeleteNames(l[1..], name, n);
      if l[0].0 != name {
        assert Delete(l, name)[1..] == Delete(l[1..], name);
      }
    }
  }

  lemma {:induction false} DeleteUnique(l: seq<Param>, name: string)
    requires UniqueNames(l)
    ensures UniqueNames(Delete(l, name))
    decreases |l|
  {
    if l != [] {
      DeleteUnique(l[1..], name);
      DeleteNames(l[1..], name, l[0].0);
      if l[0].0 != name {
        assert Delete(l, name)[1..] == Delete(l[1..], name);
      }
    }
  }

  lemma {:induction false} HasNameAppend(l: seq<Param>, p: Param, n: string)
    ensures HasName(l + [p], n) <==> HasName(l, n) || p.0 == n
    decreases |l|
  {
    if l != [] {
      assert (l + [p])[1..] == l[1..] + [p];
      HasNameAppend(l[1..], p, n);
    } else {
      assert [p][1..] == [];
    }
  }

  lemma {:induction false} AppendUnique(l: seq<Param>, p: Param)
    requires UniqueNames(l) && !HasName(l, p.0)
    ensures UniqueNames(l + [p])
    decreases |l|
  {
    if l != [] {
      assert (l + [p])[1..] == l[1..] + [p];
      AppendUnique(l[1..], p);
      HasNameAppend(l[1..], p, l[0].0);
    } else {
      assert [p][1..] == [];
    }
  }

  /** The object behind `url.searchParams`: its list of pairs, updated in place. */
  class SearchParams {
    var list: seq<Param>

    constructor (init: seq<Param>)
      ensures list == init
    {
      list := init;
    }

    method SetParam(name: string, value: string)
      modifies this
      ensures list == Set(old(list), name, value)
    {
      list := Set(list, name, value);
    }

    method DeleteParam(name: string)
      modifies this
      ensures list == Delete(old(list), name)
    {
      list := Delete(list, name);
    }
  }
}
