/**
 * What a caller hands the registry to schedule a job: the arguments of one
 * call, or one tuple of a batch.
 */
module Jobs {
  import opened Wrappers

  /**
   * A value the registry passes to the engine without looking inside it (the
   * callable, the start timestamp, the argument tuple and the keyword dictionary),
   * or one of the two kinds of value it does look at: `None` and a string.
   */
  datatype Value = Nothing | Text(text: string) | Object(ref: nat)

  /** The arguments of one scheduling request. */
  datatype JobSpec = JobSpec(
    job: Value,
    id: string,
    name: string,
    cron: Option<string>,
    start: Value,
    args: Value,
    kwargs: Value)

  /**
   * A batch entry is a tuple (callable, id, name, cron, start, args, kwargs) of
   * which only the first three items are required.
   */
  type Descriptor = seq<Value>

  /** The id and name of an entry that has them are strings, as the batch's type hint says. */
  predicate Typed(d: Descriptor) {
    |d| >= 3 ==> d[1].Text? && d[2].Text?
  }

  /**
   * Reading the entry raises: a tuple of fewer than three items fails on
   * `job[0]`, `job[1]` or `job[2]`, and an object other than a string or `None`
   * in the CRON slot fails in the pattern search, which no `try` guards.
   */
  predicate Raises(d: Descriptor) {
    |d| < 3 || (|d| > 3 && d[3].Object?)
  }

  /** An entry the registry reads without raising. */
  predicate WellFormed(d: Descriptor) {
    Typed(d) && !Raises(d)
  }

  /** Item `k` of the tuple, or `None` when the tuple is shorter. */
  function Item(d: Descriptor, k: nat): Value {
    if |d| > k then d[k] else Nothing
  }

  /** Read a batch entry as the arguments of one request. */
  function Unpack(d: Descriptor): (spec: JobSpec)
    requires WellFormed(d)
    ensures spec.job == d[0] && spec.id == d[1].text && spec.name == d[2].text
    ensures spec.cron.Some? <==> |d| > 3 && d[3].Text?
    ensures spec.cron.Some? ==> spec.cron.value == d[3].text
    ensures |d| > 4 ==> spec.start == d[4]
    ensures |d| > 5 ==> spec.args == d[5]
    ensures |d| > 6 ==> spec.kwargs == d[6]
    ensures |d| <= 4 ==> spec.start == Nothing
    ensures |d| <= 5 ==> spec.args == Nothing
    ensures |d| <= 6 ==> spec.kwargs == Nothing
  {
    JobSpec(
      d[0], d[1].text, d[2].text,
      if Item(d, 3).Text? then Some(Item(d, 3).text) else None,
      Item(d, 4), Item(d, 5), Item(d, 6))
  }

  /** All entries of a batch, read in order. */
  function UnpackAll(ds: seq<Descriptor>): (specs: seq<JobSpec>)
    requires forall k | 0 <= k < |ds| :: WellFormed(ds[k])
    ensures |specs| == |ds|
    ensures forall k | 0 <= k < |ds| :: specs[k] == Unpack(ds[k])
    decreases |ds|
  {
    if ds == [] then [] else UnpackAll(ds[..|ds| - 1]) + [Unpack(ds[|ds| - 1])]
  }

  /** How many leading entries of a batch are read before one raises. */
  function UntilRaise(ds: seq<Descriptor>): (p: nat)
    ensures p <= |ds|
    ensures forall k | 0 <= k < p :: !Raises(ds[k])
    ensures p < |ds| ==> Raises(ds[p])
    decreases |ds|
  {
    if ds == [] || Raises(ds[0]) then 0 else 1 + UntilRaise(ds[1..])
  }

  /** The requests a batch yields, in order, up to the first entry that raises. */
  function UnpackUntilRaise(ds: seq<Descriptor>): (specs: seq<JobSpec>)
    requires forall k | 0 <= k < |ds| :: Typed(ds[k])
    ensures |specs| == UntilRaise(ds)
  {
    UnpackAll(ds[..UntilRaise(ds)])
  }

  /** A batch whose entries all read cleanly yields one request per entry. */
  lemma UnpackUntilRaiseAll(ds: seq<Descriptor>)
    requires forall k | 0 <= k < |ds| :: Typed(ds[k]) && !Raises(ds[k])
    ensures UntilRaise(ds) == |ds| && UnpackUntilRaise(ds) == UnpackAll(ds)
  {
    assert ds[..|ds|] == ds;
  }

  /**
   * An entry laid out as the batch's docstring lists it (callable, id, name,
   * start, args, kwargs) puts the start timestamp in the CRON slot, so reading
   * it raises, and nothing after it in the batch is read.
   */
  lemma DocstringLayoutRaises(job: Value, id: string, name: string, start: Value, args: Value, kwargs: Value,
                              rest: seq<Descriptor>)
    requires start.Object?
    ensures Raises([job, Text(id), Text(name), start, args, kwargs])
    ensures UntilRaise([[job, Text(id), Text(name), start, args, kwargs]] + rest) == 0
  {
  }

  /** The full seven-item tuple for a request. */
  function Pack(spec: JobSpec): Descriptor {
    [spec.job, Text(spec.id), Text(spec.name),
     if spec.cron.Some? then Text(spec.cron.value) else Nothing,
     spec.start, spec.args, spec.kwargs]
  }

  /** A full tuple reads back as the request it was made from. */
  lemma UnpackPack(spec: JobSpec)
    ensures WellFormed(Pack(spec)) && Unpack(Pack(spec)) == spec
  {
  }

  /** A missing trailing item reads exactly like an explicit `None` in its place. */
  lemma MissingItemIsNone(d: Descriptor)
    requires WellFormed(d) && |d| < 7
    ensures WellFormed(d + [Nothing]) && Unpack(d + [Nothing]) == Unpack(d)
  {
    var d' := d + [Nothing];
    assert forall k | 0 <= k < |d| :: d'[k] == d[k];
    assert Item(d', |d|) == Nothing == Item(d, |d|);
  }
}
