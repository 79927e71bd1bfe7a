/** A process's descriptor table: which open file each descriptor number refers to. */
module Descriptors {

  type Table<!F> = map<int, F>

  /** The least number from `n` on that is not in use. */
  function FreeFrom<F>(t: Table<F>, n: nat): (r: nat)
    ensures n <= r && r !in t
    ensures forall k :: n <= k < r ==> k in t
    decreases set k | k in t && k >= n
  {
    if n in t then
      assert (set k | k in t && k >= n + 1) == (set k | k in t && k >= n) - {n};
      FreeFrom(t, n + 1)
    else n
  }

  /** New descriptors get the lowest free number. */
  function LowestFree<F>(t: Table<F>): (r: nat)
    ensures r !in t && forall k :: 0 <= k < r ==> k in t
  {
    FreeFrom(t, 0)
  }

  function Dup<F>(t: Table<F>, fd: int): (r: (Table<F>, int)) {
    var n: int := LowestFree(t);
    if fd >= 0 && fd in t then (t[n := t[fd]], n) else (t, -1)
  }

  function Dup2<F>(t: Table<F>, from: int, to: nat): Table<F> {
    if from >= 0 && from in t then t[to := t[from]] else t
  }

  function Close<F>(t: Table<F>, fd: int): Table<F> {
    if fd >= 0 then t - {fd} else t
  }

  class Process<F> {
    var table: Table<F>

    constructor (table: Table<F>)
      ensures this.table == table
    {
      this.table := table;
    }

    method DupFd(fd: int) returns (n: int)
      modifies this
      ensures (table, n) == Dup(old(table), fd)
    {
      n := -1;
      if fd >= 0 && fd in table {
        n := LowestFree(table);
        table := table[n := table[fd]];
      }
    }

    method Dup2Fd(from: int, to: nat)
      modifies this
      ensures table == Dup2(old(table), from, to)
    {
      if from >= 0 && from in table {
        table := table[to := table[from]];
      }
    }

    method CloseFd(fd: int)
      modifies this
      ensures table == Close(old(table), fd)
    {
      if fd >= 0 {
        table := table - {fd};
      }
    }

    /** open() of a file that can be opened: `file` is the new open file. */
    method OpenFile(file: F) returns (n: nat)
      modifies this
      ensures n == LowestFree(old(table)) && table == old(table)[n := file]
    {
      n := LowestFree(table);
      table := table[n := file];
    }
  }
}
