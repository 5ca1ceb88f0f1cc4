/** Values shared by the writer: errors, results, the writer state and the
    namespace scope frames (`Prefix`, `Context<N>`). */
module Types {

  /** The one error kind this core raises: an operation called in the wrong state,
      or an attribute in a namespace that has no bound prefix. */
  datatype Error = UnexpectedState

  datatype Option<T> = None | Some(value: T)

  datatype Result<T> = Ok(value: T) | Err(error: Error)

  /** Where the writer is in the grammar of a document. */
  datatype State = Attribute | Element | Scalar

  /** One namespace binding: the short `prefix` stands for the URI `ns`.
      Both empty is the "unused slot" sentinel of a scope frame. */
  datatype Prefix = Prefix(prefix: string, ns: string)

  const Sentinel := Prefix("", "")

  /** The test `pop` uses to skip a slot: both fields are empty. */
  predicate IsSentinel(p: Prefix) {
    p.ns == "" && p.prefix == ""
  }

  /** A scope frame `Context<N>`: the default namespace it installs (or, as an undo
      frame, restores) and exactly N prefix slots; N is `|prefixes|`. */
  datatype Context = Context(defaultNs: string, prefixes: seq<Prefix>)

  /** `Context::<N>::default()`: empty default namespace and N sentinel slots. */
  function DefaultContext(n: nat): (c: Context)
    ensures |c.prefixes| == n && c.defaultNs == ""
    ensures forall k :: 0 <= k < n ==> IsSentinel(c.prefixes[k])
  {
    Context("", seq(n, _ => Sentinel))
  }
}
