/** The checkpoint table of src/chainparams.rs. The hash of an entry is absent when its text does
    not parse as one. */
module ChainParams {
  import opened Headers

  datatype Option<+T> = None | Some(value: T)

  datatype Checkpoint = Checkpoint(height: nat, hash: Option<Hash>)

  /** The entry for a height; the first one, if there are several. */
  function GetCheckpoint(table: seq<Checkpoint>, height: nat): Option<Hash> {
    if table == [] then None
    else if table[0].height == height then table[0].hash
    else GetCheckpoint(table[1..], height)
  }

  predicate Ascending(table: seq<Checkpoint>) {
    forall i, j :: 0 <= i < j < |table| ==> table[i].height < table[j].height
  }

  lemma {:induction false} CheckpointAt(table: seq<Checkpoint>, i: nat)
    requires Ascending(table) && i < |table|
    ensures GetCheckpoint(table, table[i].height) == table[i].hash
  {
    if i > 0 {
      CheckpointAt(table[1..], i - 1);
    }
  }

  lemma {:induction false} NoCheckpoint(table: seq<Checkpoint>, height: nat)
    requires forall i :: 0 <= i < |table| ==> table[i].height != height || table[i].hash.None?
    ensures GetCheckpoint(table, height).None?
  {
    if table != [] {
      NoCheckpoint(table[1..], height);
    }
  }

  /** The last entry of a list whose hash parses. */
  function LastParsed(table: seq<Checkpoint>): Option<(nat, Hash)> {
    if table == [] then None
    else if table[|table| - 1].hash.Some? then Some((table[|table| - 1].height, table[|table| - 1].hash.value))
    else LastParsed(table[..|table| - 1])
  }

  lemma {:induction false} LastParsedExact(table: seq<Checkpoint>)
    ensures var last := LastParsed(table);
            && (last.Some? ==> exists k :: 0 <= k < |table| && table[k] == Checkpoint(last.value.0, Some(last.value.1))
                                           && forall j :: k < j < |table| ==> table[j].hash.None?)
            && (last.None? ==> forall j :: 0 <= j < |table| ==> table[j].hash.None?)
  {
    if table != [] && table[|table| - 1].hash.None? {
      LastParsedExact(table[..|table| - 1]);
    }
  }

  /** In an ascending table what precedes the first entry above a height is all there is up to it, so its
      last parsed entry is the latest checkpoint at or below the height: the lookup gives the same hash,
      and there is none in between. */
  lemma {:induction false} LatestCheckpoint(table: seq<Checkpoint>, height: nat, n: nat)
    requires Ascending(table) && n <= |table| && (n < |table| ==> table[n].height > height)
    requires forall i :: 0 <= i < n ==> table[i].height <= height
    ensures var last := LastParsed(table[..n]);
            && (last.Some? ==> last.value.0 <= height && GetCheckpoint(table, last.value.0) == Some(last.value.1))
            && forall h: nat :: (last.Some? ==> last.value.0 < h) && h <= height ==> GetCheckpoint(table, h).None?
  {
    var last := LastParsed(table[..n]);
    LastParsedExact(table[..n]);
    if last.Some? {
      var k :| 0 <= k < n && table[k] == Checkpoint(last.value.0, Some(last.value.1))
               && forall j :: k < j < n ==> table[..n][j].hash.None?;
      CheckpointAt(table, k);
    }
    forall h: nat | (last.Some? ==> last.value.0 < h) && h <= height
      ensures GetCheckpoint(table, h).None?
    {
      forall k | 0 <= k < |table|
        ensures table[k].height != h || table[k].hash.None?
      {
        if k < n {
          assert table[..n][k] == table[k];
        } else {
          assert table[n].height <= table[k].height;
        }
      }
      NoCheckpoint(table, h);
    }
  }

  /** The last parsed entry before the first one above the height, whatever the order of the table; in an
      ascending table, the latest checkpoint at or below the height. */
  method GetLastCheckpointBefore(table: seq<Checkpoint>, height: nat) returns (last: Option<(nat, Hash)>, ghost n: nat)
    ensures n <= |table| && (n < |table| ==> table[n].height > height)
    ensures forall i :: 0 <= i < n ==> table[i].height <= height
    ensures last == LastParsed(table[..n])
    ensures Ascending(table) && last.Some? ==>
              last.value.0 <= height && GetCheckpoint(table, last.value.0) == Some(last.value.1)
    ensures Ascending(table) ==>
              forall h: nat :: (last.Some? ==> last.value.0 < h) && h <= height ==> GetCheckpoint(table, h).None?
  {
    last := None;
    var i := 0;
    while i < |table| && table[i].height <= height
      invariant 0 <= i <= |table|
      invariant forall k :: 0 <= k < i ==> table[k].height <= height
      invariant last == LastParsed(table[..i])
    {
      assert table[..i + 1][..i] == table[..i];
      if table[i].hash.Some? {
        last := Some((table[i].height, table[i].hash.value));
      }
      i := i + 1;
    }
    n := i;
    if Ascending(table) {
      LatestCheckpoint(table, height, n);
    }
  }
}
