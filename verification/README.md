# Linux list-walking commands of sdb, modelled in Dafny

sdb is a debugger for live kernels and crash dumps. Its commands form a
pipeline over streams of memory-backed values. This project models the two
commands that walk the Linux kernel's intrusive linked lists:

- `linux_list` (alias `lxlist`) walks doubly-linked lists of type `struct list_head`.
- `linux_hlist` (alias `lxhlist`) walks hash-bucket lists of type `struct hlist_head`.

It also models the resolver that both commands use for the struct name the user types.

- `Results` holds `Option` and `Result`, which stand in for Python's exceptions.
- `DrgnTypes` describes the type-information provider as data. `Program` holds:
  - a map from the names a lookup resolves to their type descriptors, each descriptor carrying the type's own name and its kind;
  - the text of the lookup error for each name it does not resolve;
  - an abstract canonicalisation function, which stands in for `sdb.type_canonicalize`. Because descriptors carry a name, each typedef can lead to a different canonical type: `spinlock_t` to a struct, `u32` to an integer.
- `Resolver.ResolveStructName` is the resolver `_get_valid_struct_name`. It is a total function that returns `Ok(name)` or `Err(CommandError(command, message))`.
- `Stream.Drive` is the loop the two commands share, and `Stream.DriveIsExpected` is its contract. For each head, in order, it forwards every record the walker yields. The first lookup error becomes a command error, and the stream stops there. Its partner is `Stream.Expected`, which states the same output without iteration, using the first failing walk and the concatenation of the records.
- `Commands.LxListCall` and `Commands.LxHListCall` resolve the name once. They then drive drgn's `list_for_each_entry` or `hlist_for_each_entry` over the input. Both walkers are abstract functions from (struct name, head, member) to the finite records they yield, plus the lookup error they may raise after those records.

The function's docstring (sdb/commands/linux/linked_lists.py:36-41) says that for "a name of a struct" it returns the canonical name, adding the "struct" prefix. The code does this only for a bare tag that the direct lookup does not find. A name the direct lookup finds is accepted only if it is a typedef (lines 59-61). So the spelled-out `struct foo` fails with "struct foo is not a struct nor a typedef to a struct", even though `foo` alone resolves to `struct foo`. The model follows the code. `Resolver.NonTypedefRejected` and `Resolver.StructSpellingRejected` state this behaviour. The fallback also accepts whatever the prefixed lookup finds, without checking its kind, as `Resolver.FallbackAcceptsAnyKind` shows.

## Model

| member | source | states |
|---|---|---|
| Resolver.ResolveStructName | sdb/commands/linux/linked_lists.py:35-65 | an accepted name is the user's spelling or that spelling with "struct " in front; every error carries the invoking command's name |
| Resolver.FallbackToStructPrefix | sdb/commands/linux/linked_lists.py:47-56 | a name unknown as written but known as "struct " + name resolves to exactly "struct " + name |
| Resolver.UnknownNameFails | sdb/commands/linux/linked_lists.py:49-55 | a name unknown both ways fails with a command error carrying the command name and the second lookup's error text |
| Resolver.NonTypedefRejected | sdb/commands/linux/linked_lists.py:59-61 | a name found directly whose kind is not typedef (a struct included) fails with "... is not a struct nor a typedef to a struct" |
| Resolver.DirectHitIgnoresFallback | sdb/commands/linux/linked_lists.py:47-61 | once the direct lookup succeeds, the prefixed name is never consulted: the outcome depends only on the direct hit and its canonical type |
| Resolver.TypedefToNonStructRejected | sdb/commands/linux/linked_lists.py:62-64 | a typedef whose canonical type is not a struct fails with "... is not a typedef to a struct" |
| Resolver.TypedefToStructKept | sdb/commands/linux/linked_lists.py:62-65 | a typedef to a struct is accepted under the user's own spelling, unchanged |
| Resolver.ResolveSucceedsIff | sdb/commands/linux/linked_lists.py:47-65 | resolution succeeds if and only if the name is a typedef to a struct, or is unknown while its "struct "-prefixed spelling is known; the returned spelling shows which case applied |
| Resolver.ResolvedNameDenotesStruct | sdb/commands/linux/linked_lists.py:36-45 | when the user gives a struct tag (a C identifier), and "struct tag" denotes a struct for every tag, the accepted name denotes a struct, directly or through a typedef |
| Resolver.FallbackAcceptsAnyKind | sdb/commands/linux/linked_lists.py:51-56 | the fallback does not check the kind of what it finds: "foo *" is accepted as "struct foo *", which denotes a pointer |
| Resolver.TypedefCheckedPerName | sdb/commands/linux/linked_lists.py:59-65 | the typedef check is made per name: in one type table, `spinlock_t` (a typedef of a struct) is accepted unchanged while `u32` (a typedef of an integer) fails with "u32 is not a typedef to a struct" |
| Resolver.StructSpellingRejected | sdb/commands/linux/linked_lists.py:47-61 | a tag known only as "struct tag" resolves to "struct tag", yet "struct tag" itself is refused whenever it is not a typedef |
| Stream.DriveIsExpected | sdb/commands/linux/linked_lists.py:111-115 | the contract of `Stream.Drive`, the per-head loop: it delivers exactly the declaratively stated output: if no walk fails, all records; otherwise the records before the first failure, then that walk's error tagged with the command |
| Stream.DriveAppend | sdb/commands/linux/linked_lists.py:111-115 | the stream over joined inputs is the stream over the first input, continued by the stream over the second only when the first ended without error |
| Stream.DriveSucceedsIff | sdb/commands/linux/linked_lists.py:111-113 | the stream ends without error if and only if no head's walk fails, and then it is every walk's records concatenated in input order |
| Stream.FailureKeepsEmitted | sdb/commands/linux/linked_lists.py:112-115 | when head i is the first to fail, the records from earlier heads and from head i's partial walk stay emitted, and the error carries the command name and the walker's message |
| Stream.LaterHeadsNeverWalked | sdb/commands/linux/linked_lists.py:111-115 | once head i fails, heads after it are never walked: any input that agrees up to head i gives the same stream |
| Stream.EmittedIsPrefix | sdb/commands/linux/linked_lists.py:111-115 | the emitted records are always a prefix of all records of all walks, so nothing is reordered or invented |
| Commands.Call | sdb/commands/linux/linked_lists.py:110-115 | the body shared by both commands: resolution happens once, before any head is walked; on failure nothing is emitted and the resolver's error ends the stream; on success the output is the expected output of the given walker over each head, with the one resolved name and the user's member |
| Commands.LxListCall | sdb/commands/linux/linked_lists.py:109-115 | `linux_list` emits nothing and fails with the resolver's error when resolution fails; otherwise its output is the expected output of list_for_each_entry over each head, with the one resolved name and the user's member |
| Commands.LxHListCall | sdb/commands/linux/linked_lists.py:152-158 | the same for `linux_hlist` with hlist_for_each_entry |
| Commands.ResolutionFailureEmitsNothing | sdb/commands/linux/linked_lists.py:110-111 | an unresolvable struct name yields no record and the same error for every input |
| Commands.CallSplits | sdb/commands/linux/linked_lists.py:110-115 | the command's output over joined inputs is its output over the first input, continued by its output over the second only when the first ended without error |
| Commands.CallIsPerHeadConcatenation | sdb/commands/linux/linked_lists.py:111-113 | when the command succeeds, its records are the concatenation of the records of the command run on each head alone, in order |

## Left out

- Resolver.ResolvedNameDenotesStruct: the lemma covers only a user-supplied name that is a C identifier. For any other name, the source's fallback may return a "struct "-prefixed name of any kind, such as a pointer, and the model does too (`Resolver.FallbackAcceptsAnyKind`).
- The internals of drgn's `list_for_each_entry` and `hlist_for_each_entry` are left out. drgn is a foreign library and is not part of this model, so its pointer chasing, container-of offset subtraction and the two stop conditions (back at the head, or a null pointer) are not modelled. The walkers are abstract parameters that yield a finite run of records.
- `sdb.get_prog().type` and `sdb.type_canonicalize` are not part of this model. They are given as a lookup map, an error-text function and an abstract canonicalisation function. Exceptions from the lookup other than `LookupError` are not modelled. For example, drgn raises a syntax error for an unparsable name, and that error propagates uncaught.
- Argument parsing (`_init_parser`), the help texts and the `names` alias lists are left out, because they are registration metadata. The invocation name and the two arguments are given directly.
- Laziness and generator suspension are left out. In the source, the name is resolved at the first pull on the output, and a consumer that stops pulling stops the walk. Streams here are finite sequences that are evaluated completely.
- Errors raised by the upstream stage that produces the heads are left out.
- Memory reads are left out. A walker failure in the model is a `LookupError`, such as an unknown member name, and only that exception is turned into a command error. Other exceptions from the walkers are not caught by the source and are not modelled. An example is drgn's fault on an unreadable address, which reaches the caller untagged, not as a command error.
