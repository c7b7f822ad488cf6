/**
 A directory of named entries whose operations may fail without effect. Failures are chosen freely, so that what is
 proved about a program on this store holds for every pattern of failures. Every state the store passes through is
 recorded.
 */
module FileStore {
  import opened Prelude

  /** A path is the list of its components. */
  type Path = seq<string>

  /** What a symbolic link holds: the pieces of its text between slashes, which may be empty, "." or "..". */
  datatype Target = Target(absolute: bool, parts: seq<string>)

  datatype Node = File(data: seq<byte>) | Dir | Link(target: Target) | Other

  datatype Error = Nil | Exists | NotExists | Unsupported | Failure

  datatype Lookup = Found(node: Node) | Missing | Unknown

  type Entries = map<Path, Node>

  /** The text `suffix` appended to a path. */
  function WithSuffix(p: Path, suffix: string): Path {
    if p == [] then [suffix] else p[..|p| - 1] + [p[|p| - 1] + suffix]
  }

  lemma SuffixesDiffer(p: Path, a: string, b: string)
    requires a != "" && b != ""
    ensures WithSuffix(p, a) != p
    ensures WithSuffix(WithSuffix(p, a), b) != p
    ensures WithSuffix(WithSuffix(p, a), b) == WithSuffix(p, a + b)
  {
    if p != [] {
      var last := p[|p| - 1];
      assert |last| < |last + a|;
      assert last + a + b == last + (a + b);
    }
  }

  /** The effect of a successful rename. */
  function Renamed(e: Entries, from: Path, to: Path): Entries
    requires from in e && from != to
  {
    e[to := e[from]] - {from}
  }

  /** A step that was tried, and how it went. */
  datatype Attempt =
    | Move(from: Path, to: Path, err: Error)
    | Drop(name: Path, err: Error)
    | Look(name: Path, found: Lookup)

  class Disk {
    var entries: Entries
    ghost var history: seq<Entries>
    ghost var attempts: seq<Attempt>
    ghost var faults: nat  // how many steps have failed

    constructor (entries: Entries)
      ensures this.entries == entries && history == [] && attempts == [] && faults == 0
    {
      this.entries := entries;
      history, attempts, faults := [], [], 0;
    }

    /** Renames an entry, replacing what is at the new name, or fails and changes nothing. */
    method Rename(from: Path, to: Path) returns (err: Error)
      requires from != to
      modifies this
      ensures err == Nil ==> from in old(entries) && entries == Renamed(old(entries), from, to)
      ensures err != Nil ==> entries == old(entries)
      ensures history == old(history) + [entries] && attempts == old(attempts) + [Move(from, to, err)]
      ensures faults == old(faults) + if err == Nil then 0 else 1
    {
      var works: bool := *;
      if works && from in entries {
        entries := Renamed(entries, from, to);
        err := Nil;
      } else {
        err := AnyFailure();
        faults := faults + 1;
      }
      history := history + [entries];
      attempts := attempts + [Move(from, to, err)];
    }

    method Remove(name: Path) returns (err: Error)
      modifies this
      ensures err == Nil ==> name in old(entries) && entries == old(entries) - {name}
      ensures err != Nil ==> entries == old(entries)
      ensures err == NotExists <==> name !in old(entries)
      ensures history == old(history) + [entries] && attempts == old(attempts) + [Drop(name, err)]
      ensures faults == old(faults) + if err == Nil || err == NotExists then 0 else 1
    {
      if name !in entries {
        err := NotExists;
      } else if * {
        entries := entries - {name};
        err := Nil;
      } else {
        err := Failure;
        faults := faults + 1;
      }
      history := history + [entries];
      attempts := attempts + [Drop(name, err)];
    }

    method Lstat(name: Path) returns (r: Lookup)
      modifies this`attempts, this`faults
      ensures r.Found? ==> name in entries && entries[name] == r.node
      ensures r.Missing? ==> name !in entries
      ensures attempts == old(attempts) + [Look(name, r)]
      ensures faults == old(faults) + if r.Unknown? then 1 else 0
    {
      if * {
        r := Unknown;
        faults := faults + 1;
      } else if name in entries {
        r := Found(entries[name]);
      } else {
        r := Missing;
      }
      attempts := attempts + [Look(name, r)];
    }

    /** Any other step that may fail, such as setting a mode, or find that the context has expired. */
    method Works() returns (ok: bool)
      modifies this`faults
      ensures faults == old(faults) + if ok then 0 else 1
    {
      ok := *;
      if !ok {
        faults := faults + 1;
      }
    }

    /** Replaces the content of an existing file, as a write through an open handle does. */
    method Store(name: Path, data: seq<byte>)
      requires name in entries && entries[name].File?
      modifies this
      ensures entries == old(entries)[name := File(data)]
      ensures history == old(history) + [entries] && attempts == old(attempts) && faults == old(faults)
    {
      entries := entries[name := File(data)];
      history := history + [entries];
    }

    method Create(name: Path) returns (err: Error)
      modifies this
      ensures err == Nil ==> name !in old(entries) && entries == old(entries)[name := File([])]
      ensures err != Nil ==> entries == old(entries)
      ensures history == old(history) + [entries] && attempts == old(attempts)
      ensures faults == old(faults) + if err == Nil then 0 else 1
    {
      var works: bool := *;
      if works && name !in entries {
        entries := entries[name := File([])];
        err := Nil;
      } else {
        err := AnyFailure();
        faults := faults + 1;
      }
      history := history + [entries];
    }

    static method AnyFailure() returns (err: Error)
      ensures err != Nil
    {
      if
      case true => err := Exists;
      case true => err := NotExists;
      case true => err := Unsupported;
      case true => err := Failure;
    }
  }
}
