/**
 The rotation of X server logs (daemon/scdm-server.c) on a directory of named
 files, and what it keeps over any number of server starts.
 */
module LogRotation {

  import opened Basics
  import opened IntegerCodec

  type Content = string

  const MAX_LOGS := 5

  /** The names a log goes through: path, path.1, path.2, ... */
  function Slot(path: string, i: nat): string {
    if i == 0 then path else path + ['.'] + Print(i)
  }

  function Lookup(files: map<string, Content>, name: string): Option<Content> {
    if name in files then Some(files[name]) else None
  }

  function Held(files: map<string, Content>, path: string, i: nat): Option<Content> {
    Lookup(files, Slot(path, i))
  }

  /** A name that n copies of path never use. */
  ghost predicate Other(name: string, path: string, n: nat) {
    name != path && forall i: nat :: i < n ==> name != Slot(path, i)
  }

  lemma OthersDiffer(path: string, n: nat, i: nat)
    requires 1 <= i < n
    ensures forall name: string :: Other(name, path, n) ==> name != Slot(path, i) && name != Slot(path, i - 1)
  {
  }

  lemma UnlinkKeeps(files: map<string, Content>, path: string)
    ensures var after := files - {path};
            && Held(after, path, 0) == None
            && (forall i: nat :: i >= 1 ==> Held(after, path, i) == Held(files, path, i))
            && forall name: string :: name != path ==> Lookup(after, name) == Lookup(files, name)
  {
    forall i: nat | i >= 1 ensures Held(files - {path}, path, i) == Held(files, path, i) {
      SlotsDiffer(path, 0, i);
    }
  }

  /**
   The files after a rotation of n copies: each slot holds what the slot
   before it held, and path itself is gone.
   */
  ghost predicate Rotated(before: map<string, Content>, after: map<string, Content>, path: string, n: nat) {
    && Held(after, path, 0) == None
    && (forall i: nat :: 1 <= i < n ==> Held(after, path, i) == Held(before, path, i - 1))
    && (forall name: string :: Other(name, path, n) ==> Lookup(after, name) == Lookup(before, name))
  }

  lemma SlotsDiffer(path: string, i: nat, j: nat)
    requires i != j
    ensures Slot(path, i) != Slot(path, j)
  {
    if i != 0 && j != 0 && Slot(path, i) == Slot(path, j) {
      assert Print(i) == Slot(path, i)[|path| + 1..] == Slot(path, j)[|path| + 1..] == Print(j);
      DigitsValueOf(i);
      DigitsValueOf(j);
      assert false;
    }
  }

  class Directory {
    var files: map<string, Content>

    method Unlink(name: string)
      modifies this
      ensures files == old(files) - {name}
    {
      files := files - {name};
    }

    /** Renaming what is not there fails and changes nothing. */
    method Rename(from: string, to: string)
      modifies this
      ensures files == if from in old(files) then old(files)[to := old(files)[from]] - {from} else old(files)
      ensures from != to ==>
                && Lookup(files, to) == (if from in old(files) then Lookup(old(files), from) else Lookup(old(files), to))
                && Lookup(files, from) == None
                && forall name: string :: name != from && name != to ==> Lookup(files, name) == Lookup(old(files), name)
    {
      if from in files {
        files := files[to := files[from]] - {from};
      }
    }

    /** One turn of the loop: slot i - 1 moves to slot i. */
    method MoveUp(path: string, i: nat)
      requires i >= 1
      modifies this
      ensures forall j: nat :: Held(files, path, j) ==
                if j == i then Held(old(files), path, i - 1) else if j == i - 1 then None else Held(old(files), path, j)
      ensures forall name: string :: name != Slot(path, i) && name != Slot(path, i - 1)
                                     ==> Lookup(files, name) == Lookup(old(files), name)
    {
      var target := Slot(path, i);
      var source := if i > 1 then Slot(path, i - 1) else path;
      SlotsDiffer(path, i, i - 1);
      Unlink(target);
      Rename(source, target);
      forall j: nat | j != i && j != i - 1 ensures Held(files, path, j) == Held(old(files), path, j) {
        SlotsDiffer(path, i, j);
        SlotsDiffer(path, i - 1, j);
      }
    }

    method RotateLogs(path: string, n: nat)
      modifies this
      ensures Rotated(old(files), files, path, n)
    {
      hide Slot, Lookup;
      var i := n - 1;
      while i > 0
        invariant -1 <= i <= n - 1 && (n > 0 ==> i >= 0)
        invariant forall j: nat :: j <= i ==>
                    Held(files, path, j) == if j == i && i < n - 1 then None else Held(old(files), path, j)
        invariant forall j: nat :: i < j < n ==> Held(files, path, j) == Held(old(files), path, j - 1)
        invariant forall name: string :: Other(name, path, n) ==> Lookup(files, name) == Lookup(old(files), name)
      {
        OthersDiffer(path, n, i);
        MoveUp(path, i);
        i := i - 1;
      }
      ghost var rotated := files;
      Unlink(path);
      UnlinkKeeps(rotated, path);
    }

    /** The log of a new server: None when the file could not be opened. */
    method SetupLogfile(path: string, log: Option<Content>)
      modifies this
      ensures Started(old(files), files, path, MAX_LOGS, log)
    {
      RotateLogs(path, MAX_LOGS);
      ghost var rotated := files;
      Unlink(path);
      UnlinkKeeps(rotated, path);
      if log.Some? {
        ghost var unlinked := files;
        files := files[path := log.value];
        WriteKeeps(unlinked, path, log.value);
      }
    }
  }

  lemma WriteKeeps(files: map<string, Content>, path: string, log: Content)
    ensures var after := files[path := log];
            && Held(after, path, 0) == Some(log)
            && (forall i: nat :: i >= 1 ==> Held(after, path, i) == Held(files, path, i))
            && forall name: string :: name != path ==> Lookup(after, name) == Lookup(files, name)
  {
    forall i: nat | i >= 1 ensures Held(files[path := log], path, i) == Held(files, path, i) {
      SlotsDiffer(path, 0, i);
    }
  }

  /** One server start: the slots move up by one and path holds the new log. */
  ghost predicate Started(before: map<string, Content>, after: map<string, Content>, path: string, n: nat,
                          log: Option<Content>)
  {
    && Held(after, path, 0) == log
    && (forall i: nat :: 1 <= i < n ==> Held(after, path, i) == Held(before, path, i - 1))
    && (forall name: string :: Other(name, path, n) ==> Lookup(after, name) == Lookup(before, name))
  }

  /** A history of starts: dirs[k] is the directory after the first k logs. */
  ghost predicate History(dirs: seq<map<string, Content>>, logs: seq<Option<Content>>, path: string, n: nat) {
    && |dirs| == |logs| + 1
    && forall k :: 0 <= k < |logs| ==> Started(dirs[k], dirs[k + 1], path, n, logs[k])
  }

  /** The log of i starts ago, or what the first directory held that far back. */
  function Expected(first: map<string, Content>, logs: seq<Option<Content>>, path: string, i: nat): Option<Content> {
    if i < |logs| then logs[|logs| - 1 - i] else Held(first, path, i - |logs|)
  }

  ghost predicate Kept(first: map<string, Content>, now: map<string, Content>, logs: seq<Option<Content>>,
                       path: string, n: nat)
  {
    && (forall i: nat :: i < n ==> Held(now, path, i) == Expected(first, logs, path, i))
    && (forall name: string :: Other(name, path, n) ==> Lookup(now, name) == Lookup(first, name))
  }

  lemma ExpectedMovesUp(first: map<string, Content>, logs: seq<Option<Content>>, log: Option<Content>, path: string,
                        i: nat)
    ensures Expected(first, logs + [log], path, i) == if i == 0 then log else Expected(first, logs, path, i - 1)
  {
  }

  lemma KeptOneMore(first: map<string, Content>, before: map<string, Content>, after: map<string, Content>,
                    logs: seq<Option<Content>>, log: Option<Content>, path: string, n: nat)
    requires Kept(first, before, logs, path, n) && Started(before, after, path, n, log)
    ensures Kept(first, after, logs + [log], path, n)
  {
    hide Held, Lookup, Other, Expected;
    forall i: nat | i < n ensures Held(after, path, i) == Expected(first, logs + [log], path, i) {
      ExpectedMovesUp(first, logs, log, path, i);
      if i > 0 {
        assert Held(after, path, i) == Held(before, path, i - 1);
      }
    }
  }

  /**
   After any number of starts slot i holds the log of i starts ago, or, when
   there were not so many, what was there at first, moved up once a start.
   Files with other names are untouched.
   */
  lemma {:induction false} HistoryKept(dirs: seq<map<string, Content>>, logs: seq<Option<Content>>, path: string, n: nat)
    requires History(dirs, logs, path, n)
    ensures Kept(dirs[0], dirs[|logs|], logs, path, n)
  {
    hide Kept, Started;
    if logs == [] {
      NothingKept(dirs[0], path, n);
    } else {
      var m := |logs| - 1;
      HistoryKept(dirs[..m + 1], logs[..m], path, n);
      KeptOneMore(dirs[0], dirs[m], dirs[m + 1], logs[..m], logs[m], path, n);
      assert logs[..m] + [logs[m]] == logs;
    }
  }

  lemma NothingKept(first: map<string, Content>, path: string, n: nat)
    ensures Kept(first, first, [], path, n)
  {
    hide Held, Lookup, Other;
  }
}
