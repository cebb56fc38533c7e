/** The type-information provider the resolver consults: drgn's type kinds,
    type descriptors, and a program whose types are looked up by name.
    The provider itself is outside the model; it is given as data. */
module DrgnTypes {
  import opened Results

  /** The kinds of type drgn distinguishes. */
  datatype TypeKind =
    | Void | Int | Bool | Float | Complex
    | Struct | Union | Class | Enum
    | Typedef | Pointer | Array | Function

  /** A type descriptor: the type's own name, which tells two types of the
      same kind apart (two typedefs may stand for different types), and its
      kind, the only part the resolver inspects directly. */
  datatype Type = Type(name: string, kind: TypeKind)

  /** The program being inspected, as far as type lookup is concerned:
      - `types` maps every name the lookup resolves to its descriptor;
      - `missing` gives the text of the lookup error for a name it does not resolve;
      - `canonical` strips typedefs and qualifiers from a descriptor, so each
        typedef may lead to a type of its own. */
  datatype Program = Program(
    types: map<string, Type>,
    missing: string -> string,
    canonical: Type -> Type)

  /** The keyword drgn expects in front of a struct tag. */
  const StructPrefix: string := "struct "

  /** Looking up a type by name either yields its descriptor or fails with
      the lookup error's text. */
  function LookupType(p: Program, name: string): Result<Type, string>
  {
    if name in p.types then Ok(p.types[name]) else Err(p.missing(name))
  }

  predicate IsIdentifierChar(c: char)
  {
    ('a' <= c <= 'z') || ('A' <= c <= 'Z') || ('0' <= c <= '9') || c == '_'
  }

  /** A struct tag: a non-empty C identifier, so not starting with a digit. */
  predicate IsTag(tag: string)
  {
    && |tag| > 0
    && !('0' <= tag[0] <= '9')
    && forall i :: 0 <= i < |tag| ==> IsIdentifierChar(tag[i])
  }

  /** drgn parses "struct tag", for an identifier `tag`, as the struct type
      with that tag, so such a name resolves, if at all, to a struct. Other
      names that merely begin with "struct " (a pointer "struct foo *", an
      array "struct foo [2]") may resolve to other kinds. */
  ghost predicate WellFormed(p: Program)
  {
    forall tag :: IsTag(tag) && StructPrefix + tag in p.types ==> p.types[StructPrefix + tag].kind == Struct
  }
}
