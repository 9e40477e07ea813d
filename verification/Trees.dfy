/** The nil-aware comparison of ackcompare on a generic tree of fields.

    A resource's spec is viewed as a tree whose inner nodes are structs reached through
    pointers. A nil pointer is `Absent`. Generated delta code walks two such trees at once:
    a nilness difference is reported at the pointer and stops the descent, otherwise the
    fields are compared one by one. */
module Trees {
  import opened Basics
  import opened Api

  /** What sits at the end of a path. Lists and maps have no Absent: the delta compares their
      len() first, for which nil and empty are the same. */
  datatype Value =
    | Str(s: string)
    | Num(n: int64)
    | StrList(list: Strings)
    | StrMap(entries: map<string, Option<string>>)
    | Claims(claims: seq<Option<CustomClaim>>)
    | Filesystems(filesystems: seq<Option<FilesystemConfiguration>>)
    | TagMap(tags: map<string, string>)

  /** The segments of a dotted path, under the Go field names; `NoField` is the one empty
      segment of the path "". */
  datatype Name =
    | NoField | Spec | AgentRuntimeArtifact | CodeConfiguration | Code | S3 | Bucket | Prefix
    | VersionID | EntryPoint | Runtime | ContainerConfiguration | ContainerURI | AgentRuntimeName
    | AuthorizerConfiguration | CustomJWTAuthorizer | AllowedAudience | AllowedClients | AllowedScopes
    | CustomClaims | DiscoveryURL | Description | EnvironmentVariables | FilesystemConfigurations
    | LifecycleConfiguration | IdleRuntimeSessionTimeout | MaxLifetime | NetworkConfiguration
    | NetworkMode | NetworkModeConfig | SecurityGroups | Subnets | PlatformVersion
    | ProtocolConfiguration | ServerProtocol | RequestHeaderConfiguration | RequestHeaderAllowlist
    | RoleARN | Tags | AgentRuntimeID | AgentRuntimeVersion | FieldName | APIKey

  datatype Tree = Absent | Leaf(value: Value) | Struct(fields: Fields)
  datatype Fields = End | Field(name: Name, node: Tree, rest: Fields)

  type Path = seq<Name>
  datatype Difference = Difference(path: Path, a: Tree, b: Tree)

  /** equality.Semantic.DeepEqual on claims: pointers are compared through, and a nil list
      equals an empty one. */
  function EmptyIsNil(c: Option<CustomClaim>): Option<CustomClaim> {
    if c.Some? && c.value.authorizingClaimMatchValue.Some?
       && c.value.authorizingClaimMatchValue.value.claimMatchValue.Some?
       && c.value.authorizingClaimMatchValue.value.claimMatchValue.value.matchValueStringList == Some([])
    then
      var m := c.value.authorizingClaimMatchValue.value;
      Some(c.value.(authorizingClaimMatchValue :=
             Some(m.(claimMatchValue := Some(m.claimMatchValue.value.(matchValueStringList := None))))))
    else c
  }

  predicate ClaimsEqual(cs: seq<Option<CustomClaim>>, ds: seq<Option<CustomClaim>>) {
    |cs| == |ds| && forall i | 0 <= i < |cs| :: EmptyIsNil(cs[i]) == EmptyIsNil(ds[i])
  }

  predicate ValueEq(eq: ListEq, v: Value, w: Value) {
    if v.StrList? && w.StrList? then |v.list| == |w.list| && (|v.list| > 0 ==> eq(v.list, w.list))
    else if v.Claims? && w.Claims? then ClaimsEqual(v.claims, w.claims)
    else v == w
  }

  /** The difference the generated code reports at a pair of nodes itself. */
  predicate LocallyDiffer(eq: ListEq, a: Tree, b: Tree) {
    || a.Absent? != b.Absent?
    || (a.Leaf? && b.Leaf? && !ValueEq(eq, a.value, b.value))
  }

  function Diff(eq: ListEq, path: Path, a: Tree, b: Tree): seq<Difference>
    decreases a, 1
  {
    if LocallyDiffer(eq, a, b) then [Difference(path, a, b)]
    else if a.Struct? && b.Struct? then DiffFields(eq, path, a.fields, b.fields)
    else []
  }

  function DiffFields(eq: ListEq, path: Path, fa: Fields, fb: Fields): seq<Difference>
    decreases fa, 0
  {
    if fa.Field? && fb.Field? then
      Diff(eq, path + [fa.name], fa.node, fb.node) + DiffFields(eq, path, fa.rest, fb.rest)
    else []
  }

  // ----- Two views of the same type -----

  predicate SameShape(a: Tree, b: Tree)
    decreases a, 1
  {
    if a.Struct? && b.Struct? then SameFields(a.fields, b.fields)
    else a.Absent? || b.Absent? || (a.Leaf? && b.Leaf?)
  }

  predicate SameFields(fa: Fields, fb: Fields)
    decreases fa, 0
  {
    if fa.Field? && fb.Field? then
      fa.name == fb.name && SameShape(fa.node, fb.node) && SameFields(fa.rest, fb.rest)
    else fa.End? && fb.End?
  }

  predicate HasField(f: Fields, name: Name) {
    f.Field? && (f.name == name || HasField(f.rest, name))
  }

  /** No struct has two fields of the same name. */
  predicate DistinctNames(t: Tree)
    decreases t, 1
  {
    t.Struct? ==> DistinctFields(t.fields)
  }

  predicate DistinctFields(f: Fields)
    decreases f, 0
  {
    f.Field? ==> !HasField(f.rest, f.name) && DistinctNames(f.node) && DistinctFields(f.rest)
  }

  /** The node that a path leads to through non-nil structs, if it leads anywhere. */
  function At(t: Tree, p: Path): Option<Tree>
    decreases t, 1
  {
    if p == [] then Some(t)
    else if t.Struct? then AtField(t.fields, p)
    else None
  }

  function AtField(f: Fields, p: Path): Option<Tree>
    requires p != []
    decreases f, 0
  {
    if f.End? then None
    else if f.name == p[0] then At(f.node, p[1..])
    else AtField(f.rest, p)
  }

  /** Field-by-field equivalence. */
  predicate Equivalent(eq: ListEq, a: Tree, b: Tree)
    decreases a, 1
  {
    if a.Struct? && b.Struct? then EquivalentFields(eq, a.fields, b.fields)
    else if a.Leaf? && b.Leaf? then ValueEq(eq, a.value, b.value)
    else a.Absent? && b.Absent?
  }

  predicate EquivalentFields(eq: ListEq, fa: Fields, fb: Fields)
    decreases fa, 0
  {
    if fa.Field? && fb.Field? then Equivalent(eq, fa.node, fb.node) && EquivalentFields(eq, fa.rest, fb.rest)
    else fa.End? && fb.End?
  }

  // ----- Soundness and completeness -----

  /** The delta is empty exactly when the two trees are equivalent. */
  lemma {:induction false} DiffEmptyIff(eq: ListEq, path: Path, a: Tree, b: Tree)
    requires SameShape(a, b)
    ensures Diff(eq, path, a, b) == [] <==> Equivalent(eq, a, b)
    decreases a, 1
  {
    if a.Struct? && b.Struct? {
      DiffFieldsEmptyIff(eq, path, a.fields, b.fields);
    }
  }

  lemma {:induction false} DiffFieldsEmptyIff(eq: ListEq, path: Path, fa: Fields, fb: Fields)
    requires SameFields(fa, fb)
    ensures DiffFields(eq, path, fa, fb) == [] <==> EquivalentFields(eq, fa, fb)
    decreases fa, 0
  {
    if fa.Field? {
      DiffEmptyIff(eq, path + [fa.name], fa.node, fb.node);
      DiffFieldsEmptyIff(eq, path, fa.rest, fb.rest);
    }
  }

  /** Every reported path extends the root; below a struct, by the name of one of its fields. */
  lemma {:induction false} DiffUnder(eq: ListEq, path: Path, a: Tree, b: Tree, d: Difference)
    requires d in Diff(eq, path, a, b)
    ensures path <= d.path
    decreases a, 1
  {
    if !LocallyDiffer(eq, a, b) {
      DiffFieldsUnder(eq, path, a.fields, b.fields, d);
    }
  }

  lemma {:induction false} DiffFieldsUnder(eq: ListEq, path: Path, fa: Fields, fb: Fields, d: Difference)
    requires d in DiffFields(eq, path, fa, fb)
    ensures path < d.path && HasField(fa, d.path[|path|])
    decreases fa, 0
  {
    var deeper := path + [fa.name];
    assert deeper[|path|] == fa.name;
    if d in Diff(eq, deeper, fa.node, fb.node) {
      DiffUnder(eq, deeper, fa.node, fb.node, d);
    } else {
      DiffFieldsUnder(eq, path, fa.rest, fb.rest, d);
    }
  }

  /** Exactly what is reported: a path is named if and only if both trees have a node there,
      reached through non-nil structs, and those two nodes differ by themselves. The recorded
      values are those two nodes. */
  lemma {:induction false} DiffExact(eq: ListEq, path: Path, a: Tree, b: Tree, p: Path, x: Tree, y: Tree)
    requires SameShape(a, b) && DistinctNames(a)
    ensures Difference(path + p, x, y) in Diff(eq, path, a, b)
            <==> At(a, p) == Some(x) && At(b, p) == Some(y) && LocallyDiffer(eq, x, y)
    decreases a, 1
  {
    var d := Difference(path + p, x, y);
    if p == [] {
      assert path + p == path;
      if d in Diff(eq, path, a, b) && !LocallyDiffer(eq, a, b) {
        DiffFieldsUnder(eq, path, a.fields, b.fields, d);
      }
    } else if LocallyDiffer(eq, a, b) {
      assert |d.path| > |path|;
    } else if a.Struct? && b.Struct? {
      DiffFieldsExact(eq, path, a.fields, b.fields, p, x, y);
    }
  }

  lemma {:induction false} DiffFieldsExact(eq: ListEq, path: Path, fa: Fields, fb: Fields, p: Path, x: Tree, y: Tree)
    requires SameFields(fa, fb) && DistinctFields(fa) && p != []
    ensures Difference(path + p, x, y) in DiffFields(eq, path, fa, fb)
            <==> AtField(fa, p) == Some(x) && AtField(fb, p) == Some(y) && LocallyDiffer(eq, x, y)
    decreases fa, 0
  {
    if fa.Field? {
      var d := Difference(path + p, x, y);
      var deeper := path + [fa.name];
      var here := Diff(eq, deeper, fa.node, fb.node);
      var there := DiffFields(eq, path, fa.rest, fb.rest);
      assert d in DiffFields(eq, path, fa, fb) <==> d in here || d in there;
      assert deeper[|path|] == fa.name && d.path[|path|] == p[0];
      if fa.name == p[0] {
        if d in there {
          DiffFieldsUnder(eq, path, fa.rest, fb.rest, d);
        }
        DiffExact(eq, deeper, fa.node, fb.node, p[1..], x, y);
        assert path + p == deeper + p[1..];
      } else {
        if d in here {
          DiffUnder(eq, deeper, fa.node, fb.node, d);
        }
        DiffFieldsExact(eq, path, fa.rest, fb.rest, p, x, y);
      }
    }
  }

  /** The same for two non-nil structs, of a whole difference. */
  lemma DiffExactBelow(eq: ListEq, path: Path, a: Tree, b: Tree, d: Difference)
    requires a.Struct? && b.Struct? && SameShape(a, b) && DistinctNames(a)
    ensures d in Diff(eq, path, a, b)
            <==> && path < d.path
                 && At(a, d.path[|path|..]) == Some(d.a)
                 && At(b, d.path[|path|..]) == Some(d.b)
                 && LocallyDiffer(eq, d.a, d.b)
  {
    if d in Diff(eq, path, a, b) {
      DiffFieldsUnder(eq, path, a.fields, b.fields, d);
    }
    if path < d.path {
      var p := d.path[|path|..];
      assert d == Difference(path + p, d.a, d.b);
      DiffExact(eq, path, a, b, p, d.a, d.b);
    }
  }

  /** A node is reached through its ancestors, which are structs. */
  lemma {:induction false} AtBelow(t: Tree, p: Path, q: Path)
    requires q != [] && At(t, p + q).Some?
    ensures At(t, p).Some? && At(t, p).value.Struct?
    decreases t, 1
  {
    if p == [] {
      assert p + q == q;
    } else {
      AtFieldBelow(t.fields, p, q);
    }
  }

  lemma {:induction false} AtFieldBelow(f: Fields, p: Path, q: Path)
    requires p != [] && q != [] && AtField(f, p + q).Some?
    ensures AtField(f, p).Some? && AtField(f, p).value.Struct?
    decreases f, 0
  {
    if f.name == p[0] {
      assert (p + q)[1..] == p[1..] + q;
      AtBelow(f.node, p[1..], q);
    } else {
      AtFieldBelow(f.rest, p, q);
    }
  }

  /** No reported path is a strict prefix of another. */
  lemma NoPathInsideAnother(eq: ListEq, path: Path, a: Tree, b: Tree, d: Difference, e: Difference)
    requires SameShape(a, b) && DistinctNames(a)
    requires d in Diff(eq, path, a, b) && e in Diff(eq, path, a, b)
    ensures !(d.path < e.path)
  {
    DiffUnder(eq, path, a, b, d);
    DiffUnder(eq, path, a, b, e);
    var p, q := d.path[|path|..], e.path[|path|..];
    assert d == Difference(path + p, d.a, d.b) && e == Difference(path + q, e.a, e.b);
    DiffExact(eq, path, a, b, p, d.a, d.b);
    DiffExact(eq, path, a, b, q, e.a, e.b);
    if d.path < e.path {
      var below := q[|p|..];
      assert q == p + below;
      AtBelow(a, p, below);
      AtBelow(b, p, below);
    }
  }

  predicate NoRepeats(ds: seq<Difference>) {
    forall i, j | 0 <= i < j < |ds| :: ds[i].path != ds[j].path
  }

  lemma NoRepeatsConcat(ds: seq<Difference>, es: seq<Difference>)
    requires NoRepeats(ds) && NoRepeats(es)
    requires forall d, e | d in ds && e in es :: d.path != e.path
    ensures NoRepeats(ds + es)
  {
    var all := ds + es;
    forall i, j | 0 <= i < j < |all|
      ensures all[i].path != all[j].path
    {
      if i < |ds| <= j {
        assert all[i] in ds && all[j] in es;
      }
    }
  }

  /** No path is reported twice. */
  lemma {:induction false} PathsDistinct(eq: ListEq, path: Path, a: Tree, b: Tree)
    requires SameShape(a, b) && DistinctNames(a)
    ensures NoRepeats(Diff(eq, path, a, b))
    decreases a, 1
  {
    if a.Struct? && b.Struct? {
      FieldPathsDistinct(eq, path, a.fields, b.fields);
    }
  }

  lemma {:induction false} FieldPathsDistinct(eq: ListEq, path: Path, fa: Fields, fb: Fields)
    requires SameFields(fa, fb) && DistinctFields(fa)
    ensures NoRepeats(DiffFields(eq, path, fa, fb))
    decreases fa, 0
  {
    if fa.Field? {
      var deeper := path + [fa.name];
      var here := Diff(eq, deeper, fa.node, fb.node);
      var there := DiffFields(eq, path, fa.rest, fb.rest);
      PathsDistinct(eq, deeper, fa.node, fb.node);
      FieldPathsDistinct(eq, path, fa.rest, fb.rest);
      assert deeper[|path|] == fa.name;
      forall d, e | d in here && e in there
        ensures d.path != e.path
      {
        DiffUnder(eq, deeper, fa.node, fb.node, d);
        DiffFieldsUnder(eq, path, fa.rest, fb.rest, e);
      }
      NoRepeatsConcat(here, there);
    }
  }

  function Swap(d: Difference): Difference {
    Difference(d.path, d.b, d.a)
  }

  function SwapAll(ds: seq<Difference>): (r: seq<Difference>)
    ensures |r| == |ds|
  {
    seq(|ds|, i requires 0 <= i < |ds| => Swap(ds[i]))
  }

  /** Swapping the arguments reports the same paths in the same order, values swapped. */
  lemma {:induction false} DiffSwap(eq: ListEq, path: Path, a: Tree, b: Tree)
    requires Equivalence(eq) && SameShape(a, b)
    ensures Diff(eq, path, b, a) == SwapAll(Diff(eq, path, a, b))
    decreases a, 1
  {
    if a.Leaf? && b.Leaf? {
      assert ValueEq(eq, a.value, b.value) <==> ValueEq(eq, b.value, a.value);
    } else if a.Struct? && b.Struct? {
      DiffFieldsSwap(eq, path, a.fields, b.fields);
    }
  }

  lemma {:induction false} DiffFieldsSwap(eq: ListEq, path: Path, fa: Fields, fb: Fields)
    requires Equivalence(eq) && SameFields(fa, fb)
    ensures DiffFields(eq, path, fb, fa) == SwapAll(DiffFields(eq, path, fa, fb))
    decreases fa, 0
  {
    if fa.Field? {
      DiffSwap(eq, path + [fa.name], fa.node, fb.node);
      DiffFieldsSwap(eq, path, fa.rest, fb.rest);
    }
  }

  lemma {:induction false} EquivalentReflexive(eq: ListEq, a: Tree)
    requires Equivalence(eq)
    ensures Equivalent(eq, a, a)
    decreases a, 1
  {
    if a.Struct? {
      EquivalentFieldsReflexive(eq, a.fields);
    }
  }

  lemma {:induction false} EquivalentFieldsReflexive(eq: ListEq, f: Fields)
    requires Equivalence(eq)
    ensures EquivalentFields(eq, f, f)
    decreases f, 0
  {
    if f.Field? {
      EquivalentReflexive(eq, f.node);
      EquivalentFieldsReflexive(eq, f.rest);
    }
  }

  /** Equivalence of trees inherits transitivity from the supplied list relation. */
  lemma {:induction false} EquivalentTransitive(eq: ListEq, a: Tree, b: Tree, c: Tree)
    requires Equivalence(eq) && Equivalent(eq, a, b) && Equivalent(eq, b, c)
    ensures Equivalent(eq, a, c)
    decreases a, 1
  {
    if a.Leaf? {
      if a.value.StrList? && |a.value.list| > 0 {
        assert eq(a.value.list, c.value.list);
      }
    } else if a.Struct? {
      EquivalentFieldsTransitive(eq, a.fields, b.fields, c.fields);
    }
  }

  lemma {:induction false} EquivalentFieldsTransitive(eq: ListEq, fa: Fields, fb: Fields, fc: Fields)
    requires Equivalence(eq) && EquivalentFields(eq, fa, fb) && EquivalentFields(eq, fb, fc)
    ensures EquivalentFields(eq, fa, fc)
    decreases fa, 0
  {
    if fa.Field? {
      EquivalentTransitive(eq, fa.node, fb.node, fc.node);
      EquivalentFieldsTransitive(eq, fa.rest, fb.rest, fc.rest);
    }
  }

  // ----- Building trees field by field -----

  predicate Comparable(a: Tree, b: Tree) {
    SameShape(a, b) && DistinctNames(a)
  }

  predicate ComparableFields(fa: Fields, fb: Fields) {
    SameFields(fa, fb) && DistinctFields(fa)
  }

  lemma NoFields(eq: ListEq)
    ensures ComparableFields(End, End) && EquivalentFields(eq, End, End)
    ensures forall n :: !HasField(End, n)
  {
  }

  lemma Prepend(eq: ListEq, name: Name, x: Tree, y: Tree, fa: Fields, fb: Fields) returns (ra: Fields, rb: Fields)
    requires Comparable(x, y) && ComparableFields(fa, fb) && !HasField(fa, name)
    ensures ra == Field(name, x, fa) && rb == Field(name, y, fb)
    ensures && ComparableFields(ra, rb)
            && (EquivalentFields(eq, ra, rb) <==> Equivalent(eq, x, y) && EquivalentFields(eq, fa, fb))
            && forall n :: HasField(ra, n) <==> n == name || HasField(fa, n)
  {
    ra, rb := Field(name, x, fa), Field(name, y, fb);
  }

  lemma WrapStruct(eq: ListEq, fa: Fields, fb: Fields)
    requires ComparableFields(fa, fb)
    ensures Comparable(Struct(fa), Struct(fb)) && Comparable(Struct(fa), Absent)
    ensures Equivalent(eq, Struct(fa), Struct(fb)) <==> EquivalentFields(eq, fa, fb)
  {
  }

  lemma NilNode(eq: ListEq, t: Tree)
    ensures Comparable(Absent, t)
    ensures (Equivalent(eq, Absent, t) <==> t == Absent) && (Equivalent(eq, t, Absent) <==> t == Absent)
  {
  }
}
