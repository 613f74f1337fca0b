/** Ways through a schema, by which properties of its types are stated. */
module Ways {
  /** A way into a type: into elements, pointees, keys and values, the `k`-th field of a
      nested struct, or that of a member. */
  datatype Path =
    | Here
    | Elem(rest: Path)
    | Deref(rest: Path)
    | Key(rest: Path)
    | Value(rest: Path)
    | In(k: nat, rest: Path)
    | Into(t: nat, k: nat, rest: Path)
}
