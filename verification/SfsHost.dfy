/** The host directory that is copied into the image. */
module SfsHost {
  import opened SfsMap

  const MAX_FNAME_LEN := 255

  /** A host object with its inode number; a special file is none of the other three. */
  datatype Node =
    | Dir(host: nat, entries: seq<HostEntry>)
    | File(host: nat, text: seq<int>)
    | SymLink(host: nat, text: seq<int>)
    | Special

  datatype HostEntry = HostEntry(name: string, node: Node)

  predicate Hidden(name: string) { name != "" && name[0] == '.' }

  /** What a host number stands for: its kind and, for files and links, its content. */
  datatype HostObject = HostObject(kind: Kind, text: seq<int>)

  /** Host numbers are used consistently: objects with the same number are the same object. */
  predicate Sane(entries: seq<HostEntry>, what: nat -> HostObject)
    decreases entries
  {
    forall i :: 0 <= i < |entries| ==> SaneNode(entries[i].node, what)
  }

  predicate SaneNode(n: Node, what: nat -> HostObject)
    decreases n
  {
    match n
    case Dir(h, es) => what(h).kind == DirKind && Sane(es, what)
    case File(h, text) => what(h) == HostObject(FileKind, text)
    case SymLink(h, text) => what(h) == HostObject(LinkKind, text)
    case Special => true
  }

  /** The entries made for one host entry: those of a directory come before its own. */
  function VisitOne(dir: nat, e: HostEntry): seq<(nat, nat, string)>
    decreases e
  {
    if Hidden(e.name) then []
    else match e.node
      case Dir(h, es) => Visits(h, es) + [(dir, h, e.name)]
      case File(h, _) => [(dir, h, e.name)]
      case SymLink(h, _) => [(dir, h, e.name)]
      case Special => []
  }

  /** All entries made while directory `dir` is read. */
  function Visits(dir: nat, entries: seq<HostEntry>): seq<(nat, nat, string)>
    decreases entries
  {
    if entries == [] then []
    else Visits(dir, entries[..|entries| - 1]) + VisitOne(dir, entries[|entries| - 1])
  }

  lemma VisitsMore(dir: nat, entries: seq<HostEntry>, k: nat)
    requires k < |entries|
    ensures Visits(dir, entries[..k + 1]) == Visits(dir, entries[..k]) + VisitOne(dir, entries[k])
  {
    assert entries[..k + 1][..k] == entries[..k];
  }

  lemma VisitsNone(dir: nat, entries: seq<HostEntry>)
    ensures Visits(dir, entries[..0]) == []
  {}
}
