/** Receiving a file: blocks carry absolute offsets, so the order and the number of times they arrive do not matter. */
module Reassembly {
  import opened Bytes
  import opened Messages
  import opened ServerModel
  import opened ClientModel

  /**
   * The saved file has the bytes of the blocks in `saved`, zeros in front of the furthest of them where blocks are
   * missing, and ends with a block in `saved`.
   */
  predicate Holds(content: seq<byte>, file: seq<byte>, saved: set<nat>) {
    && |content| <= |file|
    && (forall j: nat :: j < |file| && j / BLOCK in saved ==> j < |content| && content[j] == file[j])
    && (forall j: nat :: j < |content| && j / BLOCK !in saved ==> content[j] == 0)
    && (content != [] ==> (|content| - 1) / BLOCK in saved)
  }

  /** The client has accepted a file and saved the blocks in `saved` under `path`. */
  predicate Receiving(c: Client, file: seq<byte>, path: Path, saved: set<nat>) {
    && c.Valid() && Storable(file) && c.isReceiving && c.fileName == path
    && (if c.handle.Closed? then saved == {}
        else c.handle.Writing? && c.handle.path == path && Holds(c.disk[path], file, saved))
  }

  lemma OverwriteHolds(content: seq<byte>, file: seq<byte>, saved: set<nat>, k: nat)
    requires Holds(content, file, saved) && k <= Final(file)
    ensures Holds(Overwrite(content, BLOCK * k, BlockData(file, k)), file, saved + {k})
  {
    var after := Overwrite(content, BLOCK * k, BlockData(file, k));
    BlockBounds(file, k);
    OverwriteSaves(content, file, saved, k);
    OverwriteLeavesZeros(content, file, saved, k);
    if BlockData(file, k) != [] {
      InBlock(file, k, End(file, k) - 1);
    }
  }

  lemma OverwriteSaves(content: seq<byte>, file: seq<byte>, saved: set<nat>, k: nat)
    requires Holds(content, file, saved) && k <= Final(file)
    ensures var after := Overwrite(content, BLOCK * k, BlockData(file, k));
            forall j: nat :: j < |file| && j / BLOCK in saved + {k} ==> j < |after| && after[j] == file[j]
  {
    BlockBounds(file, k);
    var data, after := BlockData(file, k), Overwrite(content, BLOCK * k, BlockData(file, k));
    forall j: nat | j < |file| && j / BLOCK in saved + {k} ensures j < |after| && after[j] == file[j] {
      if j / BLOCK == k {
        assert BLOCK * k <= j < End(file, k);
        assert data[j - BLOCK * k] == file[j];
      }
    }
  }

  lemma OverwriteLeavesZeros(content: seq<byte>, file: seq<byte>, saved: set<nat>, k: nat)
    requires Holds(content, file, saved) && k <= Final(file)
    ensures var after := Overwrite(content, BLOCK * k, BlockData(file, k));
            forall j: nat :: j < |after| && j / BLOCK !in saved + {k} ==> after[j] == 0
  {
    BlockBounds(file, k);
    var after := Overwrite(content, BLOCK * k, BlockData(file, k));
    forall j: nat | j < |after| && j / BLOCK !in saved + {k} ensures after[j] == 0 {
      InBlock(file, k, j);
    }
  }

  lemma InBlock(file: seq<byte>, k: nat, j: nat)
    requires k <= Final(file)
    ensures BLOCK * k <= j < End(file, k) ==> j / BLOCK == k
  {
  }

  lemma SavesBlock(c: Client, file: seq<byte>, path: Path, saved: set<nat>, k: nat)
    requires Receiving(c, file, path, saved) && k <= Final(file)
    ensures Receiving(SaveData(c, BlockData(file, k), BLOCK * k, true), file, path, saved + {k})
  {
    BlockBounds(file, k);
    OverwriteHolds(if c.handle.Closed? then [] else c.disk[path], file, saved, k);
  }

  /** Nothing is missing at the end of the source, and what is missing in it is zeros. */
  predicate OnlyZerosMissing(file: seq<byte>, saved: set<nat>) {
    && (file != [] ==> (|file| - 1) / BLOCK in saved)
    && forall j: nat :: j < |file| && j / BLOCK !in saved ==> file[j] == 0
  }

  /** The saved file is the source exactly if only zeros are missing. */
  lemma SavedIsSource(content: seq<byte>, file: seq<byte>, saved: set<nat>)
    requires Holds(content, file, saved)
    ensures content == file <==> OnlyZerosMissing(file, saved)
  {
    if OnlyZerosMissing(file, saved) {
      if file != [] {
        var last: nat := |file| - 1;
        assert last / BLOCK in saved;
      }
      assert |content| == |file|;
      forall j: nat | j < |file| ensures content[j] == file[j] {
        if j / BLOCK !in saved {
          assert content[j] == 0 == file[j];
        }
      }
    }
    if content == file {
      forall j: nat | j < |file| && j / BLOCK !in saved ensures file[j] == 0 {
        assert content[j] == 0;
      }
    }
  }

  const ANY_ANSWER := Answer(false, [])

  predicate Numbers(file: seq<byte>, order: seq<nat>) {
    forall i :: 0 <= i < |order| ==> order[i] <= Final(file)
  }

  /** The client handles blocks of the file, in the given order. */
  function Arrive(c: Client, file: seq<byte>, order: seq<nat>): (r: Client)
    requires c.Valid() && Storable(file) && Numbers(file, order)
    ensures Arrive(c, file, order).Valid()
    decreases |order|
  {
    if order == [] then c else Arrive(Receives(c, BlockAt(file, order[0]), ANY_ANSWER, true).client, file, order[1..])
  }

  lemma BlockArrives(c: Client, file: seq<byte>, path: Path, saved: set<nat>, k: nat)
    requires Receiving(c, file, path, saved) && k < Final(file)
    ensures Receiving(Receives(c, BlockAt(file, k), ANY_ANSWER, true).client, file, path, saved + {k})
  {
    SavesBlock(c, file, path, saved, k);
  }

  /** The final block ends the transfer, whether or not blocks are missing. */
  lemma FinalBlockArrives(c: Client, file: seq<byte>, path: Path, saved: set<nat>)
    requires Receiving(c, file, path, saved)
    ensures var d := Receives(c, BlockAt(file, Final(file)), ANY_ANSWER, true).client;
            Ended(d, path) && Holds(d.disk[path], file, saved + {Final(file)})
  {
    SavesBlock(c, file, path, saved, Final(file));
  }

  /** The transfer has ended, with a file under `path`. */
  predicate Ended(c: Client, path: Path) {
    path in c.disk && !c.isReceiving && c.handle.Closed?
  }

  function Elements(order: seq<nat>): (r: set<nat>) {
    set k | k in order
  }

  lemma FirstElement(saved: set<nat>, order: seq<nat>)
    requires order != []
    ensures (saved + {order[0]}) + Elements(order[1..]) == saved + Elements(order)
  {
    assert forall k :: k in order ==> k == order[0] || k in order[1..];
  }

  lemma {:induction false} Collects(c: Client, file: seq<byte>, path: Path, saved: set<nat>, order: seq<nat>)
    requires Receiving(c, file, path, saved)
    requires forall i :: 0 <= i < |order| ==> order[i] < Final(file)
    ensures Numbers(file, order + [Final(file)])
    ensures var d := Arrive(c, file, order + [Final(file)]);
            Ended(d, path) && Holds(d.disk[path], file, saved + Elements(order) + {Final(file)})
    decreases |order|
  {
    var all := order + [Final(file)];
    if order == [] {
      FinalBlockArrives(c, file, path, saved);
      assert all[1..] == [] && saved + Elements(order) == saved;
    } else {
      BlockArrives(c, file, path, saved, order[0]);
      assert all[1..] == order[1..] + [Final(file)];
      FirstElement(saved, order);
      Collects(Receives(c, BlockAt(file, order[0]), ANY_ANSWER, true).client, file, path, saved + {order[0]},
        order[1..]);
    }
  }

  /**
   * Blocks in any order, with repetitions and with blocks missing, then the final block: the transfer ends, and the
   * saved file is the source if and only if the missing bytes are zeros and none of them is the last. If blocks do not
   * fill the file exactly, its last byte is in the final block; if they do, the final block is empty.
   */
  lemma {:induction false} LostBlocks(c: Client, file: seq<byte>, path: Path, saved: set<nat>, order: seq<nat>)
    requires Receiving(c, file, path, saved)
    requires forall i :: 0 <= i < |order| ==> order[i] < Final(file)
    ensures Numbers(file, order + [Final(file)])
    ensures var d, got := Arrive(c, file, order + [Final(file)]), saved + Elements(order) + {Final(file)};
            && Ended(d, path)
            && (d.disk[path] == file <==> OnlyZerosMissing(file, got))
            && (|file| % BLOCK != 0 ==>
              (d.disk[path] == file <==> forall j: nat :: j < |file| && j / BLOCK !in got ==> file[j] == 0))
  {
    Collects(c, file, path, saved, order);
    var d, got := Arrive(c, file, order + [Final(file)]), saved + Elements(order) + {Final(file)};
    SavedIsSource(d.disk[path], file, got);
    if |file| % BLOCK != 0 {
      LastByteIsInFinal(file, got);
    }
  }

  lemma LastByteIsInFinal(file: seq<byte>, saved: set<nat>)
    requires |file| % BLOCK != 0 && Final(file) in saved
    ensures OnlyZerosMissing(file, saved) <==> forall j: nat :: j < |file| && j / BLOCK !in saved ==> file[j] == 0
  {
    assert (|file| - 1) / BLOCK == Final(file);
  }

  lemma NothingMissing(file: seq<byte>, saved: set<nat>)
    requires forall k: nat :: k <= Final(file) ==> k in saved
    ensures OnlyZerosMissing(file, saved)
  {
    forall j: nat | j < |file| ensures j / BLOCK in saved {
      assert j / BLOCK <= Final(file);
    }
  }

  /**
   * Reassembly does not depend on the order: if every non-final block arrives at least once, in any order and with any
   * repetitions, and the final block arrives last, the saved file is the source and the transfer has ended.
   */
  lemma {:induction false} OrderDoesNotMatter(c: Client, file: seq<byte>, path: Path, saved: set<nat>, order: seq<nat>)
    requires Receiving(c, file, path, saved)
    requires forall i :: 0 <= i < |order| ==> order[i] < Final(file)
    requires forall k: nat :: k < Final(file) ==> k in saved || k in order
    ensures Numbers(file, order + [Final(file)])
    ensures var d := Arrive(c, file, order + [Final(file)]); Ended(d, path) && d.disk[path] == file
  {
    Collects(c, file, path, saved, order);
    EveryBlockCame(file, saved, order);
    NothingMissing(file, saved + Elements(order) + {Final(file)});
    SavedIsSource(Arrive(c, file, order + [Final(file)]).disk[path], file, saved + Elements(order) + {Final(file)});
  }

  lemma EveryBlockCame(file: seq<byte>, saved: set<nat>, order: seq<nat>)
    requires forall k: nat :: k < Final(file) ==> k in saved || k in order
    ensures forall k: nat :: k <= Final(file) ==> k in saved + Elements(order) + {Final(file)}
  {
  }

  // ---------- in order ----------

  /** After the first `k` blocks in order the saved file is the source up to where they end. */
  predicate InOrder(c: Client, file: seq<byte>, path: Path, k: nat) {
    && c.Valid() && Storable(file) && k <= Final(file) && c.isReceiving && c.fileName == path
    && (if c.handle.Closed? then k == 0
        else c.handle.Writing? && c.handle.path == path && c.disk[path] == file[..BLOCK * k])
  }

  lemma NextInOrder(c: Client, file: seq<byte>, path: Path, k: nat, answer: Answer)
    requires InOrder(c, file, path, k)
    ensures var r := Receives(c, BlockAt(file, k), answer, true);
            && r.Continues?
            && (k < Final(file) ==> InOrder(r.client, file, path, k + 1))
            && (k == Final(file) ==> !r.client.isReceiving && r.client.handle.Closed?
                                     && path in r.client.disk && r.client.disk[path] == file)
  {
    BlockBounds(file, k);
    var content := if c.handle.Closed? then [] else c.disk[path];
    assert content == file[..BLOCK * k];
    assert Overwrite(content, BLOCK * k, BlockData(file, k)) == file[..End(file, k)];
    assert file[..|file|] == file;
  }
}
