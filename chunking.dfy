/** How a chunk-oriented step cuts its stream of items: every CHUNK_SIZE items
    are handed to the writer together, the last chunk holding the rest. The
    same cut, with the page size, describes how a paging reader fetches rows. */
module Chunking {

  /** What a step definition fixes: its name, the number of items per chunk
      (one transaction), the reader's page size, and whether a completed step
      is run again when its job is relaunched. */
  datatype StepConfig = StepConfig(name: string, chunkSize: nat, pageSize: nat, allowStartIfComplete: bool)

  /** The items of all chunks, in order. */
  function Flatten<T>(chunks: seq<seq<T>>): seq<T>
    decreases |chunks|
  {
    if chunks == [] then [] else chunks[0] + Flatten(chunks[1..])
  }

  lemma {:induction false} FlattenAppend<T>(a: seq<seq<T>>, b: seq<seq<T>>)
    ensures Flatten(a + b) == Flatten(a) + Flatten(b)
    decreases |a|
  {
    if a == [] {
      assert a + b == b;
    } else {
      assert (a + b)[0] == a[0];
      assert (a + b)[1..] == a[1..] + b;
      FlattenAppend(a[1..], b);
    }
  }

  /** The chunks a step of chunk size `size` forms from `items`: consecutive,
      non-empty, full except possibly the last, and together exactly the items.
      Their number is the ceiling of |items| / size. */
  function Chunks<T>(items: seq<T>, size: nat): (r: seq<seq<T>>)
    requires size > 0
    ensures Flatten(r) == items
    ensures forall i :: 0 <= i < |r| ==> 0 < |r[i]| <= size
    ensures forall i :: 0 <= i < |r| - 1 ==> |r[i]| == size
    ensures (|r| - 1) * size < |items| <= |r| * size
    decreases |items|
  {
    if |items| == 0 then []
    else if |items| <= size then [items]
    else
      var rest := Chunks(items[size..], size);
      assert ([items[..size]] + rest)[0] == items[..size];
      assert ([items[..size]] + rest)[1..] == rest;
      assert items[..size] + items[size..] == items;
      assert (|rest| + 1) * size == |rest| * size + size;
      assert (|rest| - 1) * size == |rest| * size - size;
      [items[..size]] + rest
  }

  /** The last chunk holds what the full chunks before it leave over. */
  lemma {:induction false} LastChunkLength<T>(items: seq<T>, size: nat)
    requires size > 0 && |items| > 0
    ensures var r := Chunks(items, size);
            |r[|r| - 1]| == |items| - (|r| - 1) * size
    decreases |items|
  {
    if |items| > size {
      LastChunkLength(items[size..], size);
      var rest := Chunks(items[size..], size);
      assert Chunks(items, size) == [items[..size]] + rest;
      assert (|rest| - 1) * size + size == |rest| * size;
    }
  }
}
