/** Resolution of the struct name a list-walking command is given:
    the name is looked up as written; only when that lookup fails is it
    retried with the "struct " keyword in front; a name found directly is
    accepted only when it is a typedef whose canonical type is a struct. */
module Resolver {
  import opened Results
  import opened DrgnTypes
  import opened CommandErrors

  function NotStructNorTypedef(tname: string): string
  {
    tname + " is not a struct nor a typedef to a struct"
  }

  function NotTypedefToStruct(tname: string): string
  {
    tname + " is not a typedef to a struct"
  }

  /** The name to hand to drgn's list walkers for `tname`, or the error the
      command `cmd` raises instead. */
  function ResolveStructName(p: Program, cmd: string, tname: string): (r: Result<string, CommandError>)
    ensures r.Ok? ==> r.value == tname || r.value == StructPrefix + tname
    ensures r.Err? ==> r.error.command == cmd
  {
    match LookupType(p, tname)
    case Err(_) =>
      var structName := StructPrefix + tname;
      (match LookupType(p, structName)
       case Err(msg) => Err(CommandError(cmd, msg))
       case Ok(_) => Ok(structName))
    case Ok(t) =>
      if t.kind != Typedef then
        Err(CommandError(cmd, NotStructNorTypedef(tname)))
      else if p.canonical(t).kind != Struct then
        Err(CommandError(cmd, NotTypedefToStruct(tname)))
      else
        Ok(tname)
  }

  /** A name unknown as written but known with the keyword resolves to the
      keyword-prefixed spelling. */
  lemma FallbackToStructPrefix(p: Program, cmd: string, tname: string)
    requires tname !in p.types
    requires StructPrefix + tname in p.types
    ensures ResolveStructName(p, cmd, tname) == Ok(StructPrefix + tname)
  {
  }

  /** A name unknown both ways fails, tagged with the command, carrying the
      error of the second (keyword-prefixed) lookup. */
  lemma UnknownNameFails(p: Program, cmd: string, tname: string)
    requires tname !in p.types
    requires StructPrefix + tname !in p.types
    ensures ResolveStructName(p, cmd, tname) == Err(CommandError(cmd, p.missing(StructPrefix + tname)))
  {
  }

  /** A name found directly that is not a typedef is rejected, struct or not. */
  lemma NonTypedefRejected(p: Program, cmd: string, tname: string)
    requires tname in p.types
    requires p.types[tname].kind != Typedef
    ensures ResolveStructName(p, cmd, tname) == Err(CommandError(cmd, NotStructNorTypedef(tname)))
  {
  }

  /** Once the name is found directly, the keyword-prefixed spelling is never
      consulted: two programs that agree on the name (and on canonicalising
      its type) resolve it identically, whatever else they hold. */
  lemma DirectHitIgnoresFallback(p: Program, q: Program, cmd: string, tname: string)
    requires tname in p.types && tname in q.types
    requires p.types[tname] == q.types[tname]
    requires p.canonical(p.types[tname]) == q.canonical(q.types[tname])
    ensures ResolveStructName(p, cmd, tname) == ResolveStructName(q, cmd, tname)
  {
  }

  /** A typedef to anything but a struct is rejected. */
  lemma TypedefToNonStructRejected(p: Program, cmd: string, tname: string)
    requires tname in p.types
    requires p.types[tname].kind == Typedef
    requires p.canonical(p.types[tname]).kind != Struct
    ensures ResolveStructName(p, cmd, tname) == Err(CommandError(cmd, NotTypedefToStruct(tname)))
  {
  }

  /** A typedef to a struct is accepted under the user's own spelling. */
  lemma TypedefToStructKept(p: Program, cmd: string, tname: string)
    requires tname in p.types
    requires p.types[tname].kind == Typedef
    requires p.canonical(p.types[tname]).kind == Struct
    ensures ResolveStructName(p, cmd, tname) == Ok(tname)
  {
  }

  /** Resolution succeeds exactly in the two accepting cases, and the
      resolved spelling tells which case applied. */
  lemma ResolveSucceedsIff(p: Program, cmd: string, tname: string)
    ensures ResolveStructName(p, cmd, tname).Ok? <==>
      || (tname in p.types && p.types[tname].kind == Typedef
          && p.canonical(p.types[tname]).kind == Struct)
      || (tname !in p.types && StructPrefix + tname in p.types)
    ensures ResolveStructName(p, cmd, tname) == Ok(tname) ==> tname in p.types
    ensures ResolveStructName(p, cmd, tname) == Ok(StructPrefix + tname) ==> tname !in p.types
  {
  }

  /** In a well-formed program every name accepted for a struct tag denotes
      a struct, either directly or through a typedef. */
  lemma ResolvedNameDenotesStruct(p: Program, cmd: string, tname: string)
    requires WellFormed(p)
    requires IsTag(tname)
    requires ResolveStructName(p, cmd, tname).Ok?
    ensures var s := ResolveStructName(p, cmd, tname).value;
      s in p.types
      && (p.types[s].kind == Struct
          || (p.types[s].kind == Typedef && p.canonical(p.types[s]).kind == Struct))
  {
  }

  /** The fallback checks nothing about the kind of what it finds: a name
      such as "foo *", unknown as written, is accepted as "struct foo *"
      although that name denotes a pointer. */
  lemma FallbackAcceptsAnyKind(cmd: string)
    ensures var p := Program(map["struct foo" := Type("struct foo", Struct),
                                 "struct foo *" := Type("struct foo *", Pointer)],
                             name => "could not find '" + name + "'", t => t);
      && ResolveStructName(p, cmd, "foo *") == Ok("struct foo *")
      && p.types["struct foo *"].kind == Pointer
  {
    var p := Program(map["struct foo" := Type("struct foo", Struct),
                         "struct foo *" := Type("struct foo *", Pointer)],
                     name => "could not find '" + name + "'", t => t);
    assert "foo *" !in p.types by {
      assert "foo *" != "struct foo" && "foo *" != "struct foo *";
    }
    assert StructPrefix + "foo *" == "struct foo *";
  }

  /** The typedef check is made per name: in one program, a typedef of a
      struct (`spinlock_t`) is accepted unchanged while a typedef of an
      integer (`u32`) is rejected. */
  lemma TypedefCheckedPerName(cmd: string)
    ensures var p := Program(map["spinlock_t" := Type("spinlock_t", Typedef),
                                 "u32" := Type("u32", Typedef)],
                             name => "could not find '" + name + "'",
                             (t: Type) => if t.name == "spinlock_t" then Type("struct spinlock", Struct)
                                  else if t.name == "u32" then Type("unsigned int", Int)
                                  else t);
      && ResolveStructName(p, cmd, "spinlock_t") == Ok("spinlock_t")
      && ResolveStructName(p, cmd, "u32") == Err(CommandError(cmd, "u32 is not a typedef to a struct"))
  {
    assert NotTypedefToStruct("u32") == "u32 is not a typedef to a struct";
  }

  /** A name that is itself the "struct "-prefixed spelling is refused
      whenever it is not a typedef (drgn never gives "struct tag" typedef
      kind), even though the bare tag resolves to exactly that spelling. */
  lemma StructSpellingRejected(p: Program, cmd: string, tag: string)
    requires tag !in p.types
    requires StructPrefix + tag in p.types
    requires p.types[StructPrefix + tag].kind != Typedef
    ensures ResolveStructName(p, cmd, tag) == Ok(StructPrefix + tag)
    ensures ResolveStructName(p, cmd, StructPrefix + tag)
         == Err(CommandError(cmd, NotStructNorTypedef(StructPrefix + tag)))
  {
  }
}
