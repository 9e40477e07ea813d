/** Go's pointers, slices and maps as mutable cells, and the generated patterns that copy them.

    A Go struct is a value whose fields are pointers, slices and maps, so assigning it copies
    them shallowly. A pointer is a Ref, a slice of pointers an array of Refs, a map a GoMap.

    A set of cells bounds what a pointer reaches: the `In` predicates say that everything
    reachable lies within it, the `At` functions read off the value the pointer stands for. Every
    copy comes with a bound of its own whose cells are all new, so it shares none with the
    original or with anything else. */
module Pointers {
  import opened Basics

  class Ref<T> {
    var value: T

    constructor (value: T)
      ensures this.value == value
    {
      this.value := value;
    }
  }

  class GoMap {
    var entries: map<string, Ref?<string>>

    constructor ()
      ensures entries == map[]
    {
      entries := map[];
    }
  }

  type Slice<T> = array?<Ref?<T>>
  type Cells = set<object>

  ghost predicate In<T>(p: Ref?<T>, c: Cells) {
    p != null ==> p in c
  }

  ghost function At<T>(p: Ref?<T>, c: Cells): Option<T>
    requires In(p, c)
    reads c
  {
    if p == null then None else Some(p.value)
  }

  ghost predicate ListIn<T>(a: Slice<T>, c: Cells)
    reads c
  {
    a != null ==> a in c && forall i | 0 <= i < a.Length :: In(a[i], c)
  }

  ghost function ListAt<T>(a: Slice<T>, c: Cells): (r: Option<seq<Option<T>>>)
    requires ListIn(a, c)
    reads c
    ensures a != null ==> r.Some? && |r.value| == a.Length && forall i | 0 <= i < a.Length :: r.value[i] == At(a[i], c)
  {
    if a == null then None
    else Some(seq(a.Length, i requires 0 <= i < a.Length && ListIn(a, c) reads c => At(a[i], c)))
  }

  lemma Widen<T>(p: Ref?<T>, c: Cells, d: Cells)
    requires In(p, c) && c <= d
    ensures In(p, d) && At(p, d) == At(p, c)
  {
  }

  lemma WidenList<T>(a: Slice<T>, c: Cells, d: Cells)
    requires ListIn(a, c) && c <= d
    ensures ListIn(a, d) && ListAt(a, d) == ListAt(a, c)
  {
    assert a != null ==> ListAt(a, d).value == ListAt(a, c).value;
  }

  ghost predicate MapIn(m: GoMap?, c: Cells)
    reads c
  {
    m != null ==> m in c && forall k | k in m.entries :: In(m.entries[k], c)
  }

  ghost function MapAt(m: GoMap?, c: Cells): StringMap
    requires MapIn(m, c)
    reads c
  {
    if m == null then None else Some(map k | k in m.entries :: At(m.entries[k], c))
  }

  lemma WidenMap(m: GoMap?, c: Cells, d: Cells)
    requires MapIn(m, c) && c <= d
    ensures MapIn(m, d) && MapAt(m, d) == MapAt(m, c)
  {
    assert m != null ==> MapAt(m, d).value == MapAt(m, c).value;
  }

  method Copy<T>(p: Ref?<T>, ghost c: Cells) returns (out: Ref?<T>, ghost n: Cells)
    requires In(p, c)
    ensures In(out, n) && fresh(n) && At(out, n) == old(At(p, c))
  {
    out, n := p, {};
    if p != null {
      out := new Ref(p.value);
      n := {out};
    }
  }

  /** make, then one element after the other; a nil element stays the nil that make put there. */
  method CopyList<T>(a: Slice<T>, ghost c: Cells) returns (out: Slice<T>, ghost n: Cells)
    requires ListIn(a, c)
    ensures ListIn(out, n) && fresh(n) && ListAt(out, n) == old(ListAt(a, c))
  {
    out, n := a, {};
    if a != null {
      ghost var was := ListAt(a, c).value;
      out := new Ref?<T>[a.Length](_ => null);
      n := {out};
      for i := 0 to a.Length
        invariant fresh(n) && out in n && out.Length == a.Length
        invariant forall j | 0 <= j < i :: In(out[j], n) && At(out[j], n) == was[j]
        invariant forall j | i <= j < a.Length :: out[j] == null
      {
        if a[i] != null {
          var copy := new Ref(a[i].value);
          out[i] := copy;
          n := n + {copy};
        }
      }
      assert ListAt(out, n).value == was;
    }
  }

  method CopyMap(m: GoMap?, ghost c: Cells) returns (out: GoMap?, ghost n: Cells)
    requires MapIn(m, c)
    ensures MapIn(out, n) && fresh(n) && MapAt(out, n) == old(MapAt(m, c))
  {
    out, n := m, {};
    if m != null {
      ghost var was := MapAt(m, c).value;
      out := new GoMap();
      n := {out};
      var todo := m.entries.Keys;
      while todo != {}
        invariant fresh(n) && out in n && todo <= m.entries.Keys && out.entries.Keys == m.entries.Keys - todo
        invariant forall k | k in out.entries :: In(out.entries[k], n) && At(out.entries[k], n) == was[k]
      {
        var key :| key in todo;
        var outVal: Ref?<string> := null;
        if m.entries[key] != null {
          outVal := new Ref(m.entries[key].value);
          n := n + {outVal};
        }
        out.entries := out.entries[key := outVal];
        todo := todo - {key};
      }
      assert MapAt(out, n).value == was;
    }
  }
}
