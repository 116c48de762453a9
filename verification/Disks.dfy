// The file system as a mutable map, with an I/O fault possible at every step.

module Disks {
  import opened Options

  /** The directory trees a manifest transaction reads and writes. */
  datatype Root = LiveRoot | WorkspaceRoot | CopyRoot(dir: nat)

  /** A file's place. Scratch places carry the number of the temporary
      directory (or temporary name) they belong to. */
  datatype Loc =
    | File(root: Root, path: string)
    | Backup(dir: nat, index: nat)
    | Staged(dir: nat, index: nat)
    | Temp(serial: nat)

  type Content = string
  type Files = map<Loc, Content>

  /** Everything that is not scratch. */
  predicate Lasting(l: Loc) {
    l.File? && !l.root.CopyRoot?
  }

  function SerialOf(l: Loc): nat
    requires !Lasting(l)
  {
    match l
    case File(CopyRoot(dir), _) => dir
    case Backup(dir, _) => dir
    case Staged(dir, _) => dir
    case Temp(serial) => serial
  }

  /** The scratch copies a transaction keeps in temporary directory d. */
  predicate Workfile(l: Loc, d: nat) {
    (l.Backup? || l.Staged?) && l.dir == d
  }

  /** Everything stored below temporary directory d. */
  predicate InDirectory(l: Loc, d: nat) {
    Workfile(l, d) || (l.File? && l.root == CopyRoot(d))
  }

  function Look(files: Files, l: Loc): Option<Content> {
    if l in files then Some(files[l]) else None
  }

  /** One directory tree, by path. */
  function View(files: Files, root: Root): (tree: map<string, Content>)
    ensures forall p :: p in tree <==> File(root, p) in files
    ensures forall p :: p in tree ==> tree[p] == files[File(root, p)]
  {
    var paths := set l | l in files && l.File? && l.root == root :: l.path;
    map p | p in paths :: files[File(root, p)]
  }

  /** Two disks that agree on a tree show the same view of it. */
  lemma SameView(a: Files, b: Files, root: Root)
    requires forall p :: Look(a, File(root, p)) == Look(b, File(root, p))
    ensures View(a, root) == View(b, root)
  {
    forall p
      ensures p in View(a, root) <==> p in View(b, root)
      ensures p in View(a, root) ==> View(a, root)[p] == View(b, root)[p]
    {
      assert Look(a, File(root, p)) == Look(b, File(root, p));
    }
  }

  datatype Io = Done | Missing | Fault

  class Disk {
    var files: Files
    var serial: nat
    // I/O errors raised so far, and the places whose removal raised one.
    ghost var faults: nat
    ghost var stuck: set<Loc>

    /** Unused scratch names are really unused. */
    ghost predicate Valid()
      reads this
    {
      forall l :: (l in files || l in stuck) && !Lasting(l) ==> SerialOf(l) < serial
    }

    method MakeDirectory() returns (d: nat, ok: bool)
      requires Valid()
      modifies this
      ensures Valid() && files == old(files) && stuck == old(stuck)
      ensures ok <==> faults == old(faults)
      ensures old(faults) <= faults <= old(faults) + 1
      ensures ok ==> d == old(serial) && serial == d + 1
      ensures !ok ==> serial == old(serial)
    {
      if * {
        faults := faults + 1;
        return 0, false;
      }
      d, ok := serial, true;
      serial := serial + 1;
    }

    /** Copies a file; an error may leave an incomplete copy behind. */
    method Copy(src: Loc, dst: Loc) returns (ok: bool)
      requires Valid() && src in files
      requires !Lasting(dst) ==> SerialOf(dst) < serial
      modifies this`files, this`faults
      ensures Valid()
      ensures ok <==> faults == old(faults)
      ensures old(faults) <= faults <= old(faults) + 1
      ensures forall l: Loc :: l != dst ==> Look(files, l) == old(Look(files, l))
      ensures ok ==> files == old(files)[dst := old(files)[src]]
    {
      if * {
        var partial: Content := *;
        files := files[dst := partial];
        faults := faults + 1;
        return false;
      }
      files := files[dst := files[src]];
      return true;
    }

    method Write(dst: Loc, text: Content) returns (ok: bool)
      requires Valid()
      requires !Lasting(dst) ==> SerialOf(dst) < serial
      modifies this`files, this`faults
      ensures Valid()
      ensures ok <==> faults == old(faults)
      ensures old(faults) <= faults <= old(faults) + 1
      ensures forall l: Loc :: l != dst ==> Look(files, l) == old(Look(files, l))
      ensures ok ==> files == old(files)[dst := text]
    {
      if * {
        var partial: Content := *;
        files := files[dst := partial];
        faults := faults + 1;
        return false;
      }
      files := files[dst := text];
      return true;
    }

    /** Reserves an unused temporary name and creates the empty file. */
    method MakeTemp() returns (l: Loc, ok: bool)
      requires Valid()
      modifies this`files, this`faults, this`serial
      ensures Valid()
      ensures l == Temp(old(serial)) && serial == old(serial) + 1
      ensures ok <==> faults == old(faults)
      ensures old(faults) <= faults <= old(faults) + 1
      ensures files == if ok then old(files)[l := ""] else old(files)
    {
      l := Temp(serial);
      serial := serial + 1;
      if * {
        faults := faults + 1;
        return l, false;
      }
      files := files[l := ""];
      return l, true;
    }

    /** The atomic rename: all or nothing. */
    method Replace(src: Loc, dst: Loc) returns (io: Io)
      requires Valid() && src != dst
      requires !Lasting(dst) ==> SerialOf(dst) < serial
      modifies this`files, this`faults
      ensures Valid()
      ensures io.Fault? <==> faults != old(faults)
      ensures old(faults) <= faults <= old(faults) + 1
      ensures io.Done? ==> src in old(files) && files == (old(files) - {src})[dst := old(files)[src]]
      ensures !io.Done? ==> files == old(files)
      ensures io.Missing? ==> src !in files
    {
      if * {
        faults := faults + 1;
        return Fault;
      }
      if src !in files { return Missing; }
      files := (files - {src})[dst := files[src]];
      return Done;
    }

    method Unlink(l: Loc) returns (io: Io)
      requires Valid()
      requires !Lasting(l) ==> SerialOf(l) < serial
      modifies this`files, this`faults, this`stuck
      ensures Valid()
      ensures io.Fault? <==> faults != old(faults)
      ensures old(faults) <= faults <= old(faults) + 1
      ensures stuck == if io.Fault? then old(stuck) + {l} else old(stuck)
      ensures files == if io.Done? then old(files) - {l} else old(files)
      ensures io.Missing? ==> l !in files
    {
      if * {
        faults := faults + 1;
        stuck := stuck + {l};
        return Fault;
      }
      if l !in files { return Missing; }
      files := files - {l};
      return Done;
    }

    /** Removes a temporary directory as far as it can; errors are ignored. */
    method RemoveTree(d: nat)
      requires Valid()
      modifies this`files, this`faults
      ensures Valid() && old(faults) <= faults <= old(faults) + 1
      ensures forall l: Loc :: !InDirectory(l, d) ==> Look(files, l) == old(Look(files, l))
      ensures forall l :: InDirectory(l, d) && l in files ==> l in old(files)
      ensures faults == old(faults) ==> forall l :: l in files ==> !InDirectory(l, d)
    {
      if * {
        var removed: set<Loc> := *;
        files := files - (set l | l in files && InDirectory(l, d) && l in removed);
        faults := faults + 1;
      } else {
        files := files - (set l | l in files && InDirectory(l, d));
      }
    }
  }
}
