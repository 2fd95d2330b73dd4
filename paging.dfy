/**
 * Pagination of the note list: the `chunk` helper and the `{data, hasMore}`
 * envelope built by the `GET /api/notes` handler.
 */
module Paging {
  import opened Wrappers
  import opened Seqs

  /** Page size of the note list (`LIMITARRAY`). */
  const LimitArray: nat := 20

  function Min(a: int, b: int): int {
    if a <= b then a else b
  }

  /** `Math.ceil(n / k)` for a non-negative `n` and a positive `k`. */
  function CeilDiv(n: nat, k: nat): nat
    requires k > 0
  {
    (n + k - 1) / k
  }

  lemma MulMono(a: int, b: int, k: nat)
    requires a <= b
    ensures a * k <= b * k
  {
  }

  /** `CeilDiv(n, k)` is the least `q` with `n <= q * k`. */
  lemma CeilDivBounds(n: nat, k: nat)
    requires k > 0
    ensures (CeilDiv(n, k) - 1) * k < n <= CeilDiv(n, k) * k
  {
  }

  /** More than `p` chunks exist exactly when some element lies beyond the first `p * k`. */
  lemma CeilDivExceeds(n: nat, k: nat, p: int)
    requires k > 0
    ensures CeilDiv(n, k) > p <==> p * k < n
  {
    var q := CeilDiv(n, k);
    CeilDivBounds(n, k);
    if q > p {
      MulMono(p, q - 1, k);
    } else {
      MulMono(q, p, k);
    }
  }

  /**
   * `chunk(array, chunkSize)`: `ceil(|a| / k)` slices, slice `i` being
   * `a.slice(i * k, (i + 1) * k)`; `slice` stops at the end of the array.
   */
  function Chunk<T>(a: seq<T>, k: nat): seq<seq<T>>
    requires k > 0
  {
    seq(CeilDiv(|a|, k), i requires 0 <= i < CeilDiv(|a|, k) =>
      CeilDivExceeds(|a|, k, i);
      a[i * k .. Min((i + 1) * k, |a|)])
  }

  /** Shape of the partition: every slice but the last is full, the last holds 1..k elements. */
  lemma ChunkShape<T>(a: seq<T>, k: nat)
    requires k > 0
    ensures var c := Chunk(a, k);
      && (c == [] <==> a == [])
      && (|c| - 1) * k < |a| <= |c| * k
      && (forall i :: 0 <= i < |c| - 1 ==> |c[i]| == k)
      && (c != [] ==> 1 <= |c[|c| - 1]| <= k)
  {
    var c := Chunk(a, k);
    CeilDivBounds(|a|, k);
    forall i | 0 <= i < |c| - 1
      ensures |c[i]| == k
    {
      CeilDivExceeds(|a|, k, i + 1);
    }
    if c != [] {
      var last := |c| - 1;
      assert |c[last]| == Min(|c| * k, |a|) - last * k;
    }
  }

  lemma {:induction false} ChunkPrefixFlatten<T>(a: seq<T>, k: nat, m: nat)
    requires k > 0 && m <= CeilDiv(|a|, k)
    ensures Flatten(Chunk(a, k)[..m]) == a[..Min(m * k, |a|)]
  {
    var c := Chunk(a, k);
    if m > 0 {
      ChunkPrefixFlatten(a, k, m - 1);
      CeilDivExceeds(|a|, k, m - 1);
      assert c[..m][..m - 1] == c[..m - 1];
      assert Flatten(c[..m]) == a[..(m - 1) * k] + c[m - 1];
      assert a[..(m - 1) * k] + a[(m - 1) * k .. Min(m * k, |a|)] == a[..Min(m * k, |a|)];
    }
  }

  /** Concatenating the chunks gives back the array: nothing is lost, duplicated or reordered. */
  lemma ChunkFlatten<T>(a: seq<T>, k: nat)
    requires k > 0
    ensures Flatten(Chunk(a, k)) == a
  {
    var c := Chunk(a, k);
    ChunkPrefixFlatten(a, k, |c|);
    CeilDivBounds(|a|, k);
    assert c[..|c|] == c;
  }

  /** The JSON body of `GET /api/notes`; `data` is absent when the page index misses. */
  datatype Envelope<T> = Envelope(data: Option<seq<T>>, hasMore: bool)

  /**
   * The envelope for the listed notes and the requested page: up to
   * `LimitArray` notes are sent whole; beyond that the chunk `page - 1` is
   * sent and `hasMore` is `chunks.length > page`.
   */
  function Page<T>(listed: seq<T>, page: int): (env: Envelope<T>)
    ensures |listed| <= LimitArray ==> env == Envelope(Some(listed), false)
    ensures |listed| > LimitArray ==>
              (env.data.Some? <==> 1 <= page && (page - 1) * LimitArray < |listed|)
    ensures |listed| > LimitArray && env.data.Some? ==>
              env.data.value == listed[(page - 1) * LimitArray .. Min(page * LimitArray, |listed|)]
    ensures |listed| > LimitArray ==> (env.hasMore <==> page * LimitArray < |listed|)
  {
    if |listed| > LimitArray then
      var chunks := Chunk(listed, LimitArray);
      CeilDivExceeds(|listed|, LimitArray, page);
      CeilDivExceeds(|listed|, LimitArray, page - 1);
      Envelope(if 1 <= page <= |chunks| then Some(chunks[page - 1]) else None, |chunks| > page)
    else
      Envelope(Some(listed), false)
  }

  /** Number of pages the client walks through: one while the list fits in a page. */
  function PageCount(n: nat): nat {
    if n > LimitArray then CeilDiv(n, LimitArray) else 1
  }

  /** The envelopes of pages 1 .. PageCount, in order. */
  function Pages<T>(listed: seq<T>): seq<Envelope<T>> {
    seq(PageCount(|listed|), i requires 0 <= i < PageCount(|listed|) => Page(listed, i + 1))
  }

  /** The notes carried by a run of envelopes, absent data counting as no notes. */
  function Carried<T>(pages: seq<Envelope<T>>): seq<seq<T>> {
    seq(|pages|, i requires 0 <= i < |pages| => if pages[i].data.Some? then pages[i].data.value else [])
  }

  /**
   * Walking pages 1, 2, ... while `hasMore` holds reproduces the listed
   * notes: every such page has data, the pages before the last report
   * `hasMore`, the last does not, and their concatenation is the whole list.
   */
  lemma PagesReassemble<T>(listed: seq<T>)
    ensures var pages := Pages(listed);
      && (forall i :: 0 <= i < |pages| ==> pages[i].data.Some?)
      && (forall i :: 0 <= i < |pages| ==> (pages[i].hasMore <==> i < |pages| - 1))
      && Flatten(Carried(pages)) == listed
  {
    var pages := Pages(listed);
    if |listed| > LimitArray {
      PagesReassembleLong(listed);
    } else {
      assert Carried(pages) == [listed];
      assert Carried(pages)[..0] == [];
    }
  }

  lemma PagesReassembleLong<T>(listed: seq<T>)
    requires |listed| > LimitArray
    ensures var pages := Pages(listed);
      && (forall i :: 0 <= i < |pages| ==> pages[i].data == Some(Chunk(listed, LimitArray)[i]))
      && (forall i :: 0 <= i < |pages| ==> (pages[i].hasMore <==> i < |pages| - 1))
      && Flatten(Carried(pages)) == listed
  {
    var pages := Pages(listed);
    var c := Chunk(listed, LimitArray);
    assert |pages| == |c|;
    forall i | 0 <= i < |pages|
      ensures pages[i].data == Some(c[i])
      ensures pages[i].hasMore <==> i < |pages| - 1
    {
      CeilDivExceeds(|listed|, LimitArray, i + 1);
    }
    assert Carried(pages) == c;
    ChunkFlatten(listed, LimitArray);
  }

  /** Twenty-five notes make a full first page that announces more, and a second page of five. */
  lemma TwentyFiveNotes<T>(listed: seq<T>)
    requires |listed| == 25
    ensures Page(listed, 1) == Envelope(Some(listed[..20]), true)
    ensures Page(listed, 2) == Envelope(Some(listed[20..]), false)
    ensures Page(listed, 3) == Envelope(None, false)
  {
    assert listed[20..Min(40, 25)] == listed[20..];
  }
}
