/** The body shared by both list commands: for each incoming head, in order,
    forward every record the walker yields, and turn a walker's lookup error
    into a command error that ends the stream.

    drgn's walkers are not modelled: a `Walker` is any function from
    (struct name, head, member) to the finite run of records it yields and
    the lookup error, if any, it raises after them. */
module Stream {
  import opened Results
  import opened CommandErrors

  /** A value read from the inspected program: its type and its address. */
  datatype Object = Object(typeName: string, address: int)

  /** What one walk produced: the records it yielded, then possibly the text
      of the lookup error that stopped it. */
  datatype Walked = Walked(records: seq<Object>, failure: Option<string>)

  type Walker = (string, Object, string) -> Walked

  /** What a command delivered downstream: the records emitted, then
      possibly the error that ended the stream. */
  datatype Output = Output(emitted: seq<Object>, error: Option<CommandError>)

  /** All records of a run of walks, in order. */
  function Flatten(ws: seq<Walked>): seq<Object>
  {
    if ws == [] then [] else ws[0].records + Flatten(ws[1..])
  }

  /** The position of the first failed walk, or the number of walks when
      none failed. */
  function FirstFailure(ws: seq<Walked>): (k: nat)
    ensures k <= |ws|
    ensures forall j :: 0 <= j < k ==> ws[j].failure.None?
    ensures k < |ws| ==> ws[k].failure.Some?
  {
    if ws == [] then 0
    else if ws[0].failure.Some? then 0
    else 1 + FirstFailure(ws[1..])
  }

  /** The walks of every head with one struct name and one member (a
      definition; its ensures spell out the comprehension for the proofs). */
  function Walks(walk: Walker, sname: string, heads: seq<Object>, member: string): (ws: seq<Walked>)
    ensures |ws| == |heads|
    ensures forall i :: 0 <= i < |heads| ==> ws[i] == walk(sname, heads[i], member)
  {
    seq(|heads|, i requires 0 <= i < |heads| => walk(sname, heads[i], member))
  }

  /** The intended output of a command over a run of walks, stated without
      iteration: if no walk failed, every record of every walk; otherwise the
      records of the walks before the first failure and those the failing
      walk yielded before it, followed by that walk's error tagged with the
      command's name. */
  function Expected(cmd: string, ws: seq<Walked>): Output
  {
    var k := FirstFailure(ws);
    if k == |ws| then Output(Flatten(ws), None)
    else Output(Flatten(ws[..k]) + ws[k].records, Some(CommandError(cmd, ws[k].failure.value)))
  }

  /** The command's loop over its input: walk each head with the resolved
      name and the user's member, forwarding records, and stop at the first
      lookup error. */
  function Drive(cmd: string, walk: Walker, sname: string, heads: seq<Object>, member: string): Output
  {
    if heads == [] then Output([], None)
    else
      var w := walk(sname, heads[0], member);
      if w.failure.Some? then
        Output(w.records, Some(CommandError(cmd, w.failure.value)))
      else
        var rest := Drive(cmd, walk, sname, heads[1..], member);
        Output(w.records + rest.emitted, rest.error)
  }

  /** The loop delivers exactly the declaratively stated output. */
  lemma {:induction false} DriveIsExpected(cmd: string, walk: Walker, sname: string, heads: seq<Object>, member: string)
    ensures Drive(cmd, walk, sname, heads, member) == Expected(cmd, Walks(walk, sname, heads, member))
    decreases |heads|
  {
    if heads != [] {
      var w := walk(sname, heads[0], member);
      assert Walks(walk, sname, heads, member) == [w] + Walks(walk, sname, heads[1..], member);
      ExpectedCons(cmd, w, Walks(walk, sname, heads[1..], member));
      if w.failure.None? {
        DriveIsExpected(cmd, walk, sname, heads[1..], member);
      }
    }
  }

  lemma {:induction false} FlattenAppend(a: seq<Walked>, b: seq<Walked>)
    ensures Flatten(a + b) == Flatten(a) + Flatten(b)
    decreases |a|
  {
    if a == [] {
      assert a + b == b;
    } else {
      assert (a + b)[1..] == a[1..] + b;
      FlattenAppend(a[1..], b);
    }
  }

  /** One more walk in front: a failed walk ends the output with its own
      records and error; a successful one prefixes its records. */
  lemma {:induction false} ExpectedCons(cmd: string, w: Walked, ws: seq<Walked>)
    ensures w.failure.Some? ==>
      Expected(cmd, [w] + ws) == Output(w.records, Some(CommandError(cmd, w.failure.value)))
    ensures w.failure.None? ==>
      Expected(cmd, [w] + ws)
        == Output(w.records + Expected(cmd, ws).emitted, Expected(cmd, ws).error)
  {
    var v := [w] + ws;
    assert v[1..] == ws;
    assert Flatten(v) == w.records + Flatten(ws);
    if w.failure.Some? {
      assert v[..0] == [];
    } else {
      var k := FirstFailure(ws);
      assert FirstFailure(v) == k + 1;
      if k < |ws| {
        assert v[..k + 1] == [w] + ws[..k];
        assert ([w] + ws[..k])[1..] == ws[..k];
      }
    }
  }

  /** The output over two runs of heads joined is the output over the first,
      continued by the output over the second only when the first ended
      without error: the stream is the same however the input is split. */
  lemma {:induction false} DriveAppend(cmd: string, walk: Walker, sname: string, a: seq<Object>, b: seq<Object>,
                                       member: string)
    ensures var da := Drive(cmd, walk, sname, a, member);
      Drive(cmd, walk, sname, a + b, member)
        == if da.error.Some? then da
           else Output(da.emitted + Drive(cmd, walk, sname, b, member).emitted,
                       Drive(cmd, walk, sname, b, member).error)
    decreases |a|
  {
    if a == [] {
      assert a + b == b;
    } else {
      assert (a + b)[0] == a[0];
      assert (a + b)[1..] == a[1..] + b;
      DriveAppend(cmd, walk, sname, a[1..], b, member);
    }
  }

  /** The stream ends without error exactly when no head's walk failed, and
      then it is every walk's records concatenated in input order. */
  lemma DriveSucceedsIff(cmd: string, walk: Walker, sname: string, heads: seq<Object>, member: string)
    ensures Drive(cmd, walk, sname, heads, member).error.None?
        <==> forall i :: 0 <= i < |heads| ==> walk(sname, heads[i], member).failure.None?
    ensures Drive(cmd, walk, sname, heads, member).error.None? ==>
      Drive(cmd, walk, sname, heads, member).emitted == Flatten(Walks(walk, sname, heads, member))
  {
    DriveIsExpected(cmd, walk, sname, heads, member);
    var ws := Walks(walk, sname, heads, member);
    var k := FirstFailure(ws);
    if k < |ws| {
      assert walk(sname, heads[k], member).failure.Some?;
    }
  }

  /** When the walk of head `i` is the first to fail, the records already
      emitted (those of the heads before it, and those head `i` yielded
      before its error) stay emitted, and the error names the command. */
  lemma FailureKeepsEmitted(cmd: string, walk: Walker, sname: string, heads: seq<Object>, member: string, i: nat)
    requires i < |heads|
    requires forall j :: 0 <= j < i ==> walk(sname, heads[j], member).failure.None?
    requires walk(sname, heads[i], member).failure.Some?
    ensures Drive(cmd, walk, sname, heads, member)
         == Output(Flatten(Walks(walk, sname, heads[..i], member)) + walk(sname, heads[i], member).records,
                   Some(CommandError(cmd, walk(sname, heads[i], member).failure.value)))
  {
    DriveIsExpected(cmd, walk, sname, heads, member);
    var ws := Walks(walk, sname, heads, member);
    FirstFailureIs(ws, i);
    assert ws[..i] == Walks(walk, sname, heads[..i], member);
  }

  /** Once the walk of head `i` fails, no later head is walked: any input
      that agrees with this one up to head `i` gives the same stream. */
  lemma LaterHeadsNeverWalked(cmd: string, walk: Walker, sname: string, heads: seq<Object>, others: seq<Object>,
                              member: string, i: nat)
    requires i < |heads| && i < |others|
    requires heads[..i + 1] == others[..i + 1]
    requires forall j :: 0 <= j < i ==> walk(sname, heads[j], member).failure.None?
    requires walk(sname, heads[i], member).failure.Some?
    ensures Drive(cmd, walk, sname, others, member) == Drive(cmd, walk, sname, heads, member)
  {
    assert forall j :: 0 <= j <= i ==> heads[j] == heads[..i + 1][j] == others[j];
    assert heads[..i] == others[..i];
    FailureKeepsEmitted(cmd, walk, sname, heads, member, i);
    FailureKeepsEmitted(cmd, walk, sname, others, member, i);
  }

  lemma FirstFailureIs(ws: seq<Walked>, i: nat)
    requires i < |ws|
    requires forall j :: 0 <= j < i ==> ws[j].failure.None?
    requires ws[i].failure.Some?
    ensures FirstFailure(ws) == i
  {
  }

  /** Whatever happens, the records emitted are a prefix of all the records
      the walks of all heads would yield: nothing is reordered or invented. */
  lemma EmittedIsPrefix(cmd: string, walk: Walker, sname: string, heads: seq<Object>, member: string)
    ensures var o := Drive(cmd, walk, sname, heads, member);
      var all := Flatten(Walks(walk, sname, heads, member));
      |o.emitted| <= |all| && o.emitted == all[..|o.emitted|]
  {
    DriveIsExpected(cmd, walk, sname, heads, member);
    var ws := Walks(walk, sname, heads, member);
    var k := FirstFailure(ws);
    if k < |ws| {
      FlattenSplitAt(ws, k);
    }
  }

  /** The records of a run of walks, cut at walk `k`. */
  lemma FlattenSplitAt(ws: seq<Walked>, k: nat)
    requires k < |ws|
    ensures Flatten(ws) == (Flatten(ws[..k]) + ws[k].records) + Flatten(ws[k + 1..])
  {
    var rest := ws[k..];
    assert ws == ws[..k] + rest;
    FlattenAppend(ws[..k], rest);
    assert rest[1..] == ws[k + 1..];
  }
}
