/**
  The directory that holds the segment files. Every operation may fail; operations reach storage in
  program order. `history` records each state a crash may leave behind.
*/
module Disks {
  import opened Bytes
  import opened Layout
  import S = Slots

  /** Segment files by the sequence number that names them; names sort as their numbers do. */
  type Files = map<nat, seq<byte>>

  function Resize(file: seq<byte>, size: nat): seq<byte>
  {
    if size <= |file| then file[..size] else file + Zeroes(size - |file|)
  }

  /** `after` is `before` with the slot of one file half written at most. */
  ghost predicate HalfWritten(before: Files, name: nat, slot: S.MetaSlot, after: Files)
    requires name in before && |before[name]| >= S.SEGMENT_HEADER
  {
    exists torn: S.MetaSlot ::
      && S.TornSlot(S.SlotAt(before[name][..S.SEGMENT_HEADER], S.WritePosition(MetaOf(before[name]))), slot, torn)
      && after == before[name := WithSlot(before[name], torn)]
  }

  /** `after` is `before` with the first bytes of `data` written to one file at `at`, or with that file cut there. */
  ghost predicate Grows(before: Files, name: nat, at: nat, data: seq<byte>, after: Files)
  {
    && name in before && at <= |before[name]|
    && (|| after == before[name := before[name][..at]]
        || exists n: nat | n <= |data| :: after == before[name := Overwrite(before[name], at, data[..n])])
  }

  /** Every new state of the directory is such a state. */
  ghost predicate AllGrow(before: Files, name: nat, at: nat, data: seq<byte>, past: seq<Files>, history: seq<Files>)
  {
    && |past| <= |history| && history[..|past|] == past
    && forall j | |past| <= j < |history| :: Grows(before, name, at, data, history[j])
  }

  lemma {:induction false} WriteGrows(before: Files, name: nat, at: nat, data: seq<byte>, n: nat)
    requires name in before && at <= |before[name]| && n <= |data|
    ensures Grows(before, name, at, data, before[name := Overwrite(before[name], at, data[..n])])
    ensures data[..|data|] == data
  {
    hide Overwrite;
  }

  /** Cutting the data off again is one more such state. */
  lemma {:induction false} TrimGrows(before: Files, name: nat, at: nat, data: seq<byte>, file: seq<byte>)
    requires name in before && at <= |before[name]| && at <= |file| && file[..at] == before[name][..at]
    ensures Grows(before, name, at, data, before[name := Resize(file, at)])
  {
  }

  lemma {:induction false} NothingGrew(before: Files, name: nat, at: nat, data: seq<byte>, history: seq<Files>)
    ensures AllGrow(before, name, at, data, history, history)
  {
  }

  lemma {:induction false} GrowMore(before: Files, name: nat, at: nat, data: seq<byte>, past: seq<Files>,
                                    history: seq<Files>, after: Files)
    requires AllGrow(before, name, at, data, past, history) && Grows(before, name, at, data, after)
    ensures AllGrow(before, name, at, data, past, history + [after])
  {
    hide Grows;
    assert (history + [after])[..|past|] == history[..|past|];
  }

  class Disk {
    /** Operations on a reliable disk succeed whenever they can. Crashes happen all the same. */
    const reliable: bool
    var files: Files
    var history: seq<Files>

    constructor (files: Files, reliable: bool)
      ensures this.files == files && this.reliable == reliable && history == []
    {
      this.files, this.reliable, history := files, reliable, [];
    }

    /** Any other call into the operating system: it fails or not. */
    method Fails() returns (failed: bool)
      ensures reliable ==> !failed
    {
      failed := *;
      failed := failed && !reliable;
    }

    method Remove(name: nat) returns (ok: bool)
      modifies this
      ensures ok ==> name in old(files) && files == old(files) - {name} && history == old(history) + [files]
      ensures !ok ==> files == old(files) && history == old(history)
      ensures reliable && name in old(files) ==> ok
    {
      var failed := Fails();
      ok := name in files && !failed;
      if ok {
        files := files - {name};
        history := history + [files];
      }
    }

    /** Exclusive creation of an empty file. */
    method Create(name: nat) returns (ok: bool)
      modifies this
      ensures ok ==> name !in old(files) && files == old(files)[name := []] && history == old(history) + [files]
      ensures !ok ==> files == old(files) && history == old(history)
      ensures reliable && name !in old(files) ==> ok
    {
      var failed := Fails();
      ok := name !in files && !failed;
      if ok {
        files := files[name := []];
        history := history + [files];
      }
    }

    method Truncate(name: nat, size: nat) returns (ok: bool)
      requires name in files
      modifies this
      ensures ok ==> files == old(files)[name := Resize(old(files)[name], size)]
      ensures ok ==> history == old(history) + [files]
      ensures !ok ==> files == old(files) && history == old(history)
      ensures reliable ==> ok
    {
      var failed := Fails();
      ok := !failed;
      if ok {
        files := files[name := Resize(files[name], size)];
        history := history + [files];
      }
    }

    /** A failed write leaves some prefix of the data; a crash may do the same. */
    method Write(name: nat, at: nat, data: seq<byte>) returns (ok: bool, ghost n: nat)
      requires name in files && at <= |files[name]|
      modifies this
      ensures n <= |data|
      ensures files == old(files)[name := Overwrite(old(files)[name], at, if ok then data else data[..n])]
      ensures history == old(history) + [old(files)[name := Overwrite(old(files)[name], at, data[..n])], files]
      ensures reliable ==> ok
    {
      var failed := Fails();
      var some: int := *;
      if some < 0 || some > |data| {
        some := |data|;
      }
      ok, n := !failed, some;
      history := history + [files[name := Overwrite(files[name], at, data[..some])]];
      files := files[name := Overwrite(files[name], at, if ok then data else data[..some])];
      history := history + [files];
    }

    /** Writes one metadata slot; see `Slots.TornSlot` for what a failure or a crash may leave. */
    method WriteSlot(name: nat, position: nat, slot: S.MetaSlot) returns (ok: bool, torn: S.MetaSlot)
      requires name in files && |files[name]| >= S.SEGMENT_HEADER && (position == 16 || position == 32)
      modifies this
      ensures S.TornSlot(old(files)[name][position..position + 16], slot, torn)
      ensures files == old(files)[name := Overwrite(old(files)[name], position, if ok then slot else torn)]
      ensures history == old(history) + [old(files)[name := Overwrite(old(files)[name], position, torn)], files]
      ensures reliable ==> ok
    {
      var failed := Fails();
      var garbage: S.MetaSlot := *;
      torn := garbage;
      if S.Valid(torn) {
        torn := slot;
        var nothingWritten: bool := *;
        if nothingWritten {
          torn := files[name][position..position + 16];
        }
      }
      ok := !failed;
      history := history + [files[name := Overwrite(files[name], position, torn)]];
      files := files[name := Overwrite(files[name], position, if ok then slot else torn)];
      history := history + [files];
    }

    /** The names in the directory, in order. */
    method ReadDir() returns (names: seq<nat>)
      ensures forall i, j | 0 <= i < j < |names| :: names[i] < names[j]
      ensures forall n :: n in names <==> n in files
    {
      names := [];
      var rest := files.Keys;
      while rest != {}
        invariant rest <= files.Keys
        invariant forall i, j | 0 <= i < j < |names| :: names[i] < names[j]
        invariant forall i, n | 0 <= i < |names| && n in rest :: names[i] < n
        invariant forall n :: n in names <==> n in files && n !in rest
        decreases |rest|
      {
        var least := Least(rest);
        names := names + [least];
        rest := rest - {least};
      }
    }
  }

  method Least(names: set<nat>) returns (least: nat)
    requires names != {}
    ensures least in names && forall n | n in names :: least <= n
  {
    least :| least in names;
    var rest := names - {least};
    while rest != {}
      invariant rest <= names && least in names
      invariant forall n | n in names && n !in rest :: least <= n
      decreases |rest|
    {
      var n :| n in rest;
      rest := rest - {n};
      if n < least {
        least := n;
      }
    }
  }
}
