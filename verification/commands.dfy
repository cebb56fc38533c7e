/** The two list-walking commands, `linux_list` (alias `lxlist`) over
    doubly-linked `list_head` lists and `linux_hlist` (alias `lxhlist`) over
    hash-bucket `hlist_head` lists. Each resolves the user's struct name once,
    before consuming any input, then walks every incoming head with the
    matching drgn helper. */
module Commands {
  import opened Results
  import opened DrgnTypes
  import opened Resolver
  import opened Stream

  /** One invocation: the name the command was called by and its two
      arguments, the struct name and the name of the node member. */
  datatype Invocation = Invocation(name: string, structName: string, member: string)

  /** drgn's two walkers, `list_for_each_entry` and `hlist_for_each_entry`. */
  datatype Walkers = Walkers(listForEachEntry: Walker, hlistForEachEntry: Walker)

  /** Resolve once, then drive the walker over the input heads; a resolution
      error ends the stream before anything is emitted. */
  function Call(p: Program, walk: Walker, inv: Invocation, heads: seq<Object>): (o: Output)
    ensures var r := ResolveStructName(p, inv.name, inv.structName);
      && (r.Err? ==> o == Output([], Some(r.error)))
      && (r.Ok? ==> o == Expected(inv.name, Walks(walk, r.value, heads, inv.member)))
  {
    match ResolveStructName(p, inv.name, inv.structName)
    case Err(e) => Output([], Some(e))
    case Ok(sname) =>
      DriveIsExpected(inv.name, walk, sname, heads, inv.member);
      Drive(inv.name, walk, sname, heads, inv.member)
  }

  /** `linux_list`: the doubly-linked list walk. */
  function LxListCall(p: Program, drgn: Walkers, inv: Invocation, heads: seq<Object>): (o: Output)
    ensures var r := ResolveStructName(p, inv.name, inv.structName);
      && (r.Err? ==> o == Output([], Some(r.error)))
      && (r.Ok? ==> o == Expected(inv.name, Walks(drgn.listForEachEntry, r.value, heads, inv.member)))
  {
    Call(p, drgn.listForEachEntry, inv, heads)
  }

  /** `linux_hlist`: the hash-bucket list walk. */
  function LxHListCall(p: Program, drgn: Walkers, inv: Invocation, heads: seq<Object>): (o: Output)
    ensures var r := ResolveStructName(p, inv.name, inv.structName);
      && (r.Err? ==> o == Output([], Some(r.error)))
      && (r.Ok? ==> o == Expected(inv.name, Walks(drgn.hlistForEachEntry, r.value, heads, inv.member)))
  {
    Call(p, drgn.hlistForEachEntry, inv, heads)
  }

  /** A struct name that does not resolve makes the command emit nothing,
      whatever its input, and fail with the resolver's error. */
  lemma ResolutionFailureEmitsNothing(p: Program, walk: Walker, inv: Invocation,
                                      heads: seq<Object>, others: seq<Object>)
    requires ResolveStructName(p, inv.name, inv.structName).Err?
    ensures Call(p, walk, inv, heads).emitted == []
    ensures Call(p, walk, inv, heads).error == Some(ResolveStructName(p, inv.name, inv.structName).error)
    ensures Call(p, walk, inv, heads) == Call(p, walk, inv, others)
  {
  }

  /** Feeding a command two runs of heads one after the other gives the
      output for the first run, continued by the output for the second run
      only when the first ended without error. */
  lemma CallSplits(p: Program, walk: Walker, inv: Invocation, a: seq<Object>, b: seq<Object>)
    ensures Call(p, walk, inv, a + b)
         == if Call(p, walk, inv, a).error.Some? then Call(p, walk, inv, a)
            else Output(Call(p, walk, inv, a).emitted + Call(p, walk, inv, b).emitted,
                        Call(p, walk, inv, b).error)
  {
    var r := ResolveStructName(p, inv.name, inv.structName);
    if r.Ok? {
      DriveAppend(inv.name, walk, r.value, a, b, inv.member);
    }
  }

  /** With every walk succeeding, the command's output is the walk of each
      single head, concatenated in input order. */
  lemma {:induction false} CallIsPerHeadConcatenation(p: Program, walk: Walker, inv: Invocation, heads: seq<Object>)
    requires Call(p, walk, inv, heads).error.None?
    ensures forall i :: 0 <= i < |heads| ==> Call(p, walk, inv, [heads[i]]).error.None?
    ensures Call(p, walk, inv, heads).emitted == ConcatEmitted(p, walk, inv, heads)
    decreases |heads|
  {
    if heads != [] {
      assert heads == [heads[0]] + heads[1..];
      CallSplits(p, walk, inv, [heads[0]], heads[1..]);
      CallIsPerHeadConcatenation(p, walk, inv, heads[1..]);
      forall i | 0 <= i < |heads|
        ensures Call(p, walk, inv, [heads[i]]).error.None?
      {
        if i > 0 {
          assert heads[i] == heads[1..][i - 1];
        }
      }
    }
  }

  /** The records of calling the command on each head alone, in order. */
  function ConcatEmitted(p: Program, walk: Walker, inv: Invocation, heads: seq<Object>): seq<Object>
  {
    if heads == [] then [] else Call(p, walk, inv, [heads[0]]).emitted + ConcatEmitted(p, walk, inv, heads[1..])
  }
}
