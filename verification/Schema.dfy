/** Message types as field tables, and message values. A generated codec treats every field by the
    kind of its table entry, so one model covers every generated message. */
module Schema {
  import opened Machine

  datatype Kind =
    | KBytes                       // string, []byte
    | KBool
    | KInt32
    | KInt64
    | KStrings                     // []string
    | KMessage(sub: Table)         // *M
    | KMessages(sub: Table)        // []*M

  datatype Field = Field(num: nat, kind: Kind)

  /** The fields of a message type, in ascending order of field number. */
  datatype Table = Table(fields: seq<Field>)

  datatype Value =
    | Bytes(b: bytes)
    | Bool(v: bool)
    | Int(n: int)
    | Strings(ss: seq<bytes>)
    | Child(m: Option<Msg>)        // None is the nil pointer
    | Children(ms: seq<Msg>)

  /** One value for each entry of the message's table. */
  datatype Msg = Msg(vals: seq<Value>)

  const MAX_FIELD: nat := 0x1FFF_FFFF

  predicate WellFormed(t: Table) {
    && (forall k :: 0 <= k < |t.fields| ==> 1 <= t.fields[k].num <= MAX_FIELD && KindWellFormed(t.fields[k].kind))
    && (forall j, k :: 0 <= j < k < |t.fields| ==> t.fields[j].num < t.fields[k].num)
  }

  predicate KindWellFormed(kind: Kind) {
    (kind.KMessage? || kind.KMessages?) ==> WellFormed(kind.sub)
  }

  predicate Typed(t: Table, m: Msg) {
    |m.vals| == |t.fields|
    && forall k :: 0 <= k < |t.fields| ==> TypedValue(t.fields[k].kind, m.vals[k])
  }

  predicate TypedValue(kind: Kind, v: Value) {
    match kind
    case KBytes => v.Bytes?
    case KBool => v.Bool?
    case KInt32 => v.Int? && -TWO31 <= v.n < TWO31
    case KInt64 => v.Int? && -TWO63 <= v.n < TWO63
    case KStrings => v.Strings?
    case KMessage(sub) => v.Child? && (v.m.Some? ==> Typed(sub, v.m.value))
    case KMessages(sub) => v.Children? && forall m :: m in v.ms ==> Typed(sub, m)
  }

  function ZeroValue(kind: Kind): Value {
    match kind
    case KBytes => Bytes([])
    case KBool => Bool(false)
    case KInt32 => Int(0)
    case KInt64 => Int(0)
    case KStrings => Strings([])
    case KMessage(_) => Child(None)
    case KMessages(_) => Children([])
  }

  /** The zero receiver. */
  function Zero(t: Table): (m: Msg)
    ensures |m.vals| == |t.fields|
    ensures forall k :: 0 <= k < |t.fields| ==> m.vals[k] == ZeroValue(t.fields[k].kind)
  {
    Msg(seq(|t.fields|, k requires 0 <= k < |t.fields| => ZeroValue(t.fields[k].kind)))
  }

  /** The message that folding `y` into `x` means: set scalars of `y` replace, lists append,
      nested messages merge. */
  function Merge(t: Table, x: Msg, y: Msg): (z: Msg)
    ensures |x.vals| == |t.fields| == |y.vals| ==> |z.vals| == |t.fields|
    decreases t
  {
    if |x.vals| == |t.fields| == |y.vals| then
      Msg(seq(|t.fields|, k requires 0 <= k < |t.fields| => MergeValue(t.fields[k].kind, x.vals[k], y.vals[k])))
    else x
  }

  function Base(sub: Table, x: Value): Msg {
    if x.Child? && x.m.Some? then x.m.value else Zero(sub)
  }

  function MergeValue(kind: Kind, x: Value, y: Value): Value
    decreases kind
  {
    match kind
    case KStrings => if x.Strings? && y.Strings? then Strings(x.ss + y.ss) else x
    case KMessages(_) => if x.Children? && y.Children? then Children(x.ms + y.ms) else x
    case KMessage(sub) =>
      if y.Child? && y.m.Some? then Child(Some(Merge(sub, Base(sub, x), y.m.value))) else x
    case _ => if y == ZeroValue(kind) then x else y
  }

  /** The position of the entry for a field number. */
  function IndexOf(fs: seq<Field>, num: int): (r: Option<nat>)
    ensures r.Some? ==> r.value < |fs| && fs[r.value].num == num
    ensures r.None? ==> forall k :: 0 <= k < |fs| ==> fs[k].num != num
  {
    if fs == [] then None
    else if fs[0].num == num then Some(0)
    else
      match IndexOf(fs[1..], num)
      case None =>
        assert forall k :: 0 < k < |fs| ==> fs[k] == fs[1..][k - 1];
        None
      case Some(k) => Some(k + 1)
  }

  lemma IndexOfField(t: Table, k: nat)
    requires WellFormed(t) && k < |t.fields|
    ensures IndexOf(t.fields, t.fields[k].num) == Some(k)
  {
    var r := IndexOf(t.fields, t.fields[k].num);
    assert t.fields[k].num == t.fields[k].num;
  }

  lemma ZeroTyped(t: Table)
    ensures Typed(t, Zero(t))
  {
  }

  /** Merging into the zero receiver gives the message itself. */
  lemma {:induction false} MergeIntoZero(t: Table, y: Msg)
    requires Typed(t, y)
    ensures Merge(t, Zero(t), y) == y
    decreases t
  {
    var z := Merge(t, Zero(t), y);
    forall k | 0 <= k < |t.fields|
      ensures z.vals[k] == y.vals[k]
    {
      MergeValueIntoZero(t.fields[k].kind, y.vals[k]);
    }
  }

  lemma {:induction false} MergeValueIntoZero(kind: Kind, y: Value)
    requires TypedValue(kind, y)
    ensures MergeValue(kind, ZeroValue(kind), y) == y
    decreases kind
  {
    if kind.KMessage? && y.m.Some? {
      MergeIntoZero(kind.sub, y.m.value);
    }
  }

  lemma {:induction false} MergeTyped(t: Table, x: Msg, y: Msg)
    requires Typed(t, x) && Typed(t, y)
    ensures Typed(t, Merge(t, x, y))
    decreases t
  {
    forall k | 0 <= k < |t.fields|
      ensures TypedValue(t.fields[k].kind, MergeValue(t.fields[k].kind, x.vals[k], y.vals[k]))
    {
      var kind := t.fields[k].kind;
      if kind.KMessage? && y.vals[k].m.Some? {
        ZeroTyped(kind.sub);
        MergeTyped(kind.sub, Base(kind.sub, x.vals[k]), y.vals[k].m.value);
      }
    }
  }

  /** Merging is associative: a stream of messages may be merged in any grouping. */
  lemma {:induction false} MergeAssociative(t: Table, x: Msg, y: Msg, z: Msg)
    requires Typed(t, x) && Typed(t, y) && Typed(t, z)
    ensures Merge(t, Merge(t, x, y), z) == Merge(t, x, Merge(t, y, z))
    decreases t
  {
    var l, r := Merge(t, Merge(t, x, y), z), Merge(t, x, Merge(t, y, z));
    forall k | 0 <= k < |t.fields| ensures l.vals[k] == r.vals[k] {
      MergeValueAssociative(t.fields[k].kind, x.vals[k], y.vals[k], z.vals[k]);
    }
    assert l.vals == r.vals;
  }

  lemma {:induction false} MergeValueAssociative(kind: Kind, x: Value, y: Value, z: Value)
    requires TypedValue(kind, x) && TypedValue(kind, y) && TypedValue(kind, z)
    ensures MergeValue(kind, MergeValue(kind, x, y), z) == MergeValue(kind, x, MergeValue(kind, y, z))
    decreases kind
  {
    match kind
    case KStrings => assert (x.ss + y.ss) + z.ss == x.ss + (y.ss + z.ss);
    case KMessages(_) => assert (x.ms + y.ms) + z.ms == x.ms + (y.ms + z.ms);
    case KMessage(sub) =>
      if z.m.Some? {
        ZeroTyped(sub);
        if y.m.Some? {
          MergeAssociative(sub, Base(sub, x), y.m.value, z.m.value);
        } else {
          MergeIntoZero(sub, z.m.value);
        }
      }
    case _ =>
  }
}
