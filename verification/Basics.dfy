/** Go's nilable values and the aws-sdk pointer conversions the controller calls.

    A Go pointer, slice or map that may be nil is an `Option`; `None` is nil, so a nil
    list and an empty list stay different values. */
module Basics {

  datatype Option<+T> = None | Some(value: T)

  newtype int32 = x: int | -0x8000_0000 <= x < 0x8000_0000
  newtype int64 = x: int | -0x8000_0000_0000_0000 <= x < 0x8000_0000_0000_0000

  const MAX_INT32: int64 := 0x7fff_ffff
  const MIN_INT32: int64 := -0x8000_0000

  /** `[]*string` and `map[string]*string`. */
  type Strings = seq<Option<string>>
  type StringList = Option<Strings>
  type StringMap = Option<map<string, Option<string>>>

  /** aws.ToString: nil reads as the empty string. */
  function Deref(p: Option<string>): string {
    if p.Some? then p.value else ""
  }

  /** aws.ToStringSlice */
  function ToStringSlice(l: Strings): seq<string> {
    seq(|l|, i requires 0 <= i < |l| => Deref(l[i]))
  }

  /** aws.StringSlice */
  function StringSlice(l: seq<string>): Strings {
    seq(|l|, i requires 0 <= i < |l| => Some(l[i]))
  }

  /** aws.ToStringMap */
  function ToStringMap(m: map<string, Option<string>>): map<string, string> {
    map k | k in m :: Deref(m[k])
  }

  /** aws.StringMap */
  function StringMapOf(m: map<string, string>): map<string, Option<string>> {
    map k | k in m :: Some(m[k])
  }

  /** The list with every nil element replaced by a pointer to the empty string. */
  function FillNil(l: Strings): Strings {
    seq(|l|, i requires 0 <= i < |l| => Some(Deref(l[i])))
  }

  lemma StringSliceAfterToStringSlice(l: Strings)
    ensures StringSlice(ToStringSlice(l)) == FillNil(l)
  {
  }

  lemma ToStringSliceAfterFillNil(l: Strings)
    ensures ToStringSlice(FillNil(l)) == ToStringSlice(l)
  {
  }

  /** len() of a nilable list: nil and empty both count as no elements. */
  function Items<T>(l: Option<seq<T>>): seq<T> {
    if l.Some? then l.value else []
  }

  function Entries<T>(m: Option<map<string, T>>): map<string, T> {
    if m.Some? then m.value else map[]
  }

  /** `enum != ""` read back as a pointer. */
  function NonEmpty(s: string): Option<string> {
    if s != "" then Some(s) else None
  }

  /** ackcompare.SliceStringPEqual is not part of this model: the comparison it makes on
      lists is a supplied relation, required only to be an equivalence. */
  type ListEq = (Strings, Strings) -> bool

  ghost predicate Equivalence(eq: ListEq) {
    && (forall l :: eq(l, l))
    && (forall l, m :: eq(l, m) ==> eq(m, l))
    && (forall l, m, n :: eq(l, m) && eq(m, n) ==> eq(l, n))
  }
}
