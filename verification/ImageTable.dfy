/**
 The receiver's image table: a dense array of image entries with a parallel array of shared
 buffer handles, compacted by swap-removal and searched through the probing index.
 Its observable content is a plain map from (session, stream) to entry and handle.
 */
module ImageTable {
  import opened Wrappers
  import opened ImageIndex
  import Arith

  datatype ImageEntry = ImageEntry(
    sessionId: int, streamId: int, sourceAddr: int,
    initialTermId: int, activeTermId: int, termLength: nat,
    consumptionTermId: int, consumptionTermOffset: int, receiverWindow: int,
    expectedTermOffset: int, timeOfLastSmNs: int, timeOfLastNakNs: int,
    smPending: bool, active: bool)

  const DEFAULT_ENTRY := ImageEntry(0, 0, 0, 0, 0, 0, 0, 0, 0, 0, 0, 0, false, false)

  datatype SetupHeader = SetupHeader(
    sessionId: int, streamId: int, initialTermId: int, activeTermId: int,
    termOffset: int, termLength: int)

  function KeyOf(e: ImageEntry): Key {
    Key(e.sessionId, e.streamId)
  }

  ghost function Keys(es: seq<ImageEntry>): (keys: seq<Key>)
    ensures |keys| == |es| && forall i :: 0 <= i < |es| ==> keys[i] == KeyOf(es[i])
  {
    seq(|es|, i requires 0 <= i < |es| => KeyOf(es[i]))
  }

  /** `image_hash`: multiply-xor of the two ids, masked to the 256 slots of the source. */
  function ImageHash(k: Key): (r: nat)
    ensures r < 256
  {
    var a := Arith.AsU32(Arith.AsU32(k.sessionId) * 0x9E37_79B9) as bv32;
    var b := Arith.AsU32(Arith.AsU32(k.streamId) * 0x517C_C1B7) as bv32;
    ((a ^ b) & 0xFF) as nat
  }

  /** The probing index over `images` represents exactly the entries `live`, all of them active. */
  ghost predicate Indexed(images: seq<ImageEntry>, ix: seq<nat>, h: Key -> nat, live: set<nat>) {
    && |images| == |ix|
    && Valid(ix, Keys(images), h, live)
    && forall e :: e in live ==> e < |images| && images[e].active
  }

  ghost function Without(images: seq<ImageEntry>, live: set<nat>, k: Key): set<nat>
    requires forall e :: e in live ==> e < |images|
  {
    set e | e in live && KeyOf(images[e]) != k
  }

  /** Entries outside `live` may be rewritten freely. */
  lemma IndexedFrame(images: seq<ImageEntry>, images': seq<ImageEntry>, ix: seq<nat>, h: Key -> nat, live: set<nat>)
    requires Indexed(images, ix, h, live)
    requires |images'| == |images| && forall e :: e in live && e < |images| ==> images'[e] == images[e]
    ensures Indexed(images', ix, h, live)
  {
    var p :| Probed(ix, Keys(images), h, p);
    assert forall s :: 0 <= s < |ix| && ix[s] != EMPTY ==> ix[s] in live;
    assert Probed(ix, Keys(images'), h, p);
  }

  lemma IndexHasRoom(images: seq<ImageEntry>, ix: seq<nat>, h: Key -> nat, live: set<nat>)
    requires Indexed(images, ix, h, live) && |live| < |ix|
    ensures EMPTY in ix
  {
    FreeSlotExists(ix, live);
  }

  /** A probe sequence that ran into an empty slot, or all the way round, proves the key absent. */
  lemma MissIsAbsent(images: seq<ImageEntry>, ix: seq<nat>, h: Key -> nat, live: set<nat>, k: Key, probes: nat)
    requires Indexed(images, ix, h, live)
    requires probes <= |ix|
    requires forall t :: 0 <= t < |ix| && Distance(h(k), t, |ix|) < probes ==>
               ix[t] < |images| && KeyOf(images[ix[t]]) != k
    requires probes < |ix| ==> ix[Advance(h(k), probes, |ix|)] == EMPTY
    ensures forall e :: e in live ==> KeyOf(images[e]) != k
  {
    forall e | e in live ensures KeyOf(images[e]) != k {
      var s :| 0 <= s < |ix| && ix[s] == e;
      if probes < |ix| {
        EmptySlotEndsPath(ix, Keys(images), h, live, s, Advance(h(k), probes, |ix|));
      }
    }
  }

  /** `find_image_in_index` */
  method FindImage(images: array<ImageEntry>, index: array<nat>, h: Key -> nat, k: Key, ghost live: set<nat>)
    returns (r: Option<nat>)
    requires Indexed(images[..], index[..], h, live)
    ensures r.Some? ==> r.value in live && KeyOf(images[r.value]) == k
    ensures r.None? ==> forall e :: e in live ==> KeyOf(images[e]) != k
  {
    var n := index.Length;
    var start := h(k);
    for probe := 0 to n
      invariant forall t :: 0 <= t < n && Distance(start, t, n) < probe ==>
                  index[t] < n && KeyOf(images[index[t]]) != k
    {
      var slot := Advance(start, probe, n);
      var idx := index[slot];
      assert idx == index[..][slot];
      if idx == EMPTY {
        MissIsAbsent(images[..], index[..], h, live, k, probe);
        return None;
      }
      if images[idx].active && KeyOf(images[idx]) == k {
        return Some(idx);
      }
      assert idx in live;
    }
    MissIsAbsent(images[..], index[..], h, live, k, n);
    return None;
  }

  /** `insert_image_index`; the caller guarantees a free slot. */
  method InsertIndex(images: array<ImageEntry>, index: array<nat>, h: Key -> nat, id: nat, ghost live: set<nat>)
    requires images != index as object
    requires Indexed(images[..], index[..], h, live) && EMPTY in index[..]
    requires id !in live && id < images.Length && images[id].active
    requires forall e :: e in live ==> KeyOf(images[e]) != KeyOf(images[id])
    modifies index
    ensures Indexed(images[..], index[..], h, live + {id})
  {
    var n := index.Length;
    var start := h(KeyOf(images[id]));
    ghost var ix := index[..];
    for probe := 0 to n
      invariant index[..] == ix
      invariant forall t :: 0 <= t < n && Distance(start, t, n) < probe ==> ix[t] != EMPTY
    {
      var slot := Advance(start, probe, n);
      if index[slot] == EMPTY {
        InsertKeepsValid(ix, Keys(images[..]), h, live, id, slot);
        index[slot] := id;
        assert index[..] == ix[slot := id];
        return;
      }
      assert ix[slot] != EMPTY;
    }
    assert false;
  }

  /** `remove_image_index`: find the key's slot, then shift the rest of the chain back over it. */
  method RemoveIndex(images: array<ImageEntry>, index: array<nat>, h: Key -> nat, k: Key, ghost live: set<nat>)
    requires images != index as object
    requires Indexed(images[..], index[..], h, live)
    modifies index
    ensures Indexed(images[..], index[..], h, Without(images[..], live, k))
    ensures if Without(images[..], live, k) == live then index[..] == old(index[..]) else EMPTY in index[..]
  {
    var n := index.Length;
    ghost var ix := index[..];
    ghost var keys := Keys(images[..]);
    var start := h(k);
    var target := n;
    for probe := 0 to n
      invariant target == n
      invariant forall t :: 0 <= t < n && Distance(start, t, n) < probe ==>
                  ix[t] < n && KeyOf(images[ix[t]]) != k
    {
      var slot := Advance(start, probe, n);
      var idx := index[slot];
      assert idx == ix[slot];
      if idx == EMPTY {
        MissIsAbsent(images[..], ix, h, live, k, probe);
        assert Without(images[..], live, k) == live;
        return;
      }
      if KeyOf(images[idx]) == k {
        target := slot;
        break;
      }
      assert idx in live;
    }
    if target == n {
      MissIsAbsent(images[..], ix, h, live, k, n);
      assert Without(images[..], live, k) == live;
      return;
    }

    ghost var p :| Probed(ix, keys, h, p);
    ghost var rest := live - {ix[target]};
    assert ix[target] in live && rest == Without(images[..], live, k);
    ShiftStart(ix, keys, h, p, live, target);
    var gap, shifted := ShiftChain(images, index, h, target, p, rest);
    index[gap] := EMPTY;
    assert index[..] == shifted[gap := EMPTY];
    assert index[..][gap] == EMPTY;
  }

  /** Move the entry at `j` back into the gap when its probe path covers the gap. */
  method ShiftOne(images: array<ImageEntry>, index: array<nat>, h: Key -> nat, gap: nat, j: nat,
                  ghost ix: seq<nat>, ghost p: nat, ghost frontier: nat, ghost rest: set<nat>)
    returns (gap': nat, ghost ix': seq<nat>)
    requires images != index as object && index[..] == ix && j < |ix| && ix[j] != EMPTY
    requires Shifting(ix, Keys(images[..]), h, p, gap, frontier, rest)
    requires Line(p, j, |ix|) == frontier + 1 || Line(p, j, |ix|) <= Line(p, gap, |ix|)
    modifies index
    ensures index[..] == ix' && |ix'| == |ix|
    ensures var frontier' := if Line(p, j, |ix|) == frontier + 1 then frontier + 1 else frontier;
            Shifting(ix', Keys(images[..]), h, p, gap', frontier', rest)
    ensures gap' == gap || (gap' == j && Line(p, j, |ix|) > Line(p, gap, |ix|))
  {
    if Line(p, j, |ix|) == frontier + 1 {
      ShiftStep(ix, Keys(images[..]), h, p, gap, frontier, rest, j);
    } else {
      ShiftAfterWrap(ix, Keys(images[..]), h, p, gap, frontier, rest, j);
    }
    gap', ix' := gap, ix;
    var natural := h(KeyOf(images[index[j]]));
    if Distance(natural, j, index.Length) >= Distance(gap, j, index.Length) {
      index[gap] := index[j];
      gap' := j;
      if j != gap {
        ix' := ix[gap := ix[j]];
      }
    }
  }

  /** The deletion scan, from the target's successor to the end of the chain or once round the ring. */
  method ShiftChain(images: array<ImageEntry>, index: array<nat>, h: Key -> nat, target: nat,
                    ghost p: nat, ghost rest: set<nat>)
    returns (gap: nat, ghost ix: seq<nat>)
    requires images != index as object && images.Length == index.Length
    requires target < index.Length && p < index.Length
    requires Shifting(index[..], Keys(images[..]), h, p, target, Line(p, target, index.Length), rest)
    modifies index
    ensures index[..] == ix && gap < |ix|
    ensures Holds(ix[gap := EMPTY], rest)
    ensures Probed(ix[gap := EMPTY], Keys(images[..]), h, p)
  {
    var n := index.Length;
    gap, ix := target, index[..];
    var j: nat := target;
    ghost var frontier: nat := Line(p, target, n);
    while true
      invariant j < n && gap < n
      invariant index[..] == ix && Shifting(ix, Keys(images[..]), h, p, gap, frontier, rest)
      invariant Line(p, target, n) <= Line(p, gap, n)
      invariant if Line(p, j, n) >= Line(p, target, n) then Line(p, j, n) == frontier else frontier == n - 1
      decreases Line(p, j, n) >= Line(p, target, n), n - Line(p, j, n)
    {
      LineInjective(p, j, target, n);
      j := Advance(j, 1, n);
      if index[j] == EMPTY {
        ShiftFinish(ix, Keys(images[..]), h, p, gap, frontier, rest, j);
        return;
      }
      ghost var scanned := frontier;
      frontier := if Line(p, j, n) == frontier + 1 then frontier + 1 else frontier;
      gap, ix := ShiftOne(images, index, h, gap, j, ix, p, scanned, rest);
      if j == target {
        ShiftFinish(ix, Keys(images[..]), h, p, gap, frontier, rest, j);
        return;
      }
    }
  }

  lemma WithoutIsOne(images: seq<ImageEntry>, ix: seq<nat>, h: Key -> nat, live: set<nat>, id: nat)
    requires Indexed(images, ix, h, live) && id in live
    ensures Without(images, live, KeyOf(images[id])) == live - {id}
  {
    forall e | e in live && KeyOf(images[e]) == KeyOf(images[id]) ensures e == id {
      assert Keys(images)[e] == Keys(images)[id];
    }
  }

  /** Take entry `id` out of the index and mark it inactive. */
  method Unindex(images: array<ImageEntry>, index: array<nat>, h: Key -> nat, id: nat, ghost live: set<nat>)
    requires images != index as object
    requires Indexed(images[..], index[..], h, live) && id in live && id < images.Length
    modifies images, index
    ensures Indexed(images[..], index[..], h, live - {id})
    ensures images[..] == old(images[..])[id := old(images[id]).(active := false)]
  {
    hide Indexed;
    ghost var es := images[..];
    WithoutIsOne(es, index[..], h, live, id);
    RemoveIndex(images, index, h, KeyOf(images[id]), live);
    images[id] := images[id].(active := false);
    IndexedFrame(es, images[..], index[..], h, live - {id});
  }

  /** Move the indexed entry `from` to the unused position `to` and reindex it there. */
  method MoveEntry(images: array<ImageEntry>, index: array<nat>, h: Key -> nat, from: nat, to: nat,
                   ghost live: set<nat>)
    requires images != index as object
    requires Indexed(images[..], index[..], h, live)
    requires from in live && from < images.Length && to !in live && to < images.Length
    modifies images, index
    ensures Indexed(images[..], index[..], h, live - {from} + {to})
    ensures images[..] == old(images[..])[to := old(images[from])]
  {
    ghost var es := images[..];
    ghost var rest := live - {from};
    WithoutIsOne(es, index[..], h, live, from);
    RemoveIndex(images, index, h, KeyOf(images[from]), live);
    images[to] := images[from];
    forall e | e in rest ensures KeyOf(images[e]) != KeyOf(images[to]) {
      assert e in Without(es, live, KeyOf(es[from]));
    }
    IndexedFrame(es, images[..], index[..], h, rest);
    InsertIndex(images, index, h, to, rest);
  }

  // ---- The table ----

  ghost function Range(c: nat): (r: set<nat>)
    ensures forall i: nat :: i in r <==> i < c
    ensures |r| == c
  {
    if c == 0 then {} else Range(c - 1) + {c - 1}
  }

  /** `on_setup` accepts a term length that is a power of two and at least one frame granule. */
  predicate TermLengthOk(termLength: int) {
    termLength >= 32 && Arith.IsPowerOfTwo(termLength)
  }

  function NewEntry(setup: SetupHeader, source: int, windowOverride: Option<int>): ImageEntry
    requires setup.termLength >= 0
  {
    ImageEntry(setup.sessionId, setup.streamId, source, setup.initialTermId, setup.activeTermId,
               setup.termLength, setup.activeTermId, setup.termOffset,
               if windowOverride.Some? then windowOverride.value else setup.termLength / 2,
               setup.termOffset, 0, 0, false, true)
  }

  /** The specification of a lookup: the first active entry with the key, by linear scan. */
  function LinearScan(es: seq<ImageEntry>, k: Key): (r: Option<nat>)
    ensures r.Some? ==> r.value < |es| && es[r.value].active && KeyOf(es[r.value]) == k
    ensures r.None? ==> forall i :: 0 <= i < |es| ==> !(es[i].active && KeyOf(es[i]) == k)
  {
    if |es| == 0 then None
    else
      var front := LinearScan(es[..|es| - 1], k);
      if front.Some? then front
      else if es[|es| - 1].active && KeyOf(es[|es| - 1]) == k then Some(|es| - 1)
      else None
  }

  lemma CompactUpdates<T>(s: seq<T>, idx: nat, last: nat, x: T, blank: T)
    requires idx <= last < |s|
    ensures var s1 := s[idx := x];
            var s2 := if idx != last then s1[idx := s1[last]] else s1;
            s2[last := blank] == s[idx := s[last]][last := blank]
  {
  }

  /** Unindex entry `idx` and swap entry `last` into its place. */
  method CompactImages(images: array<ImageEntry>, index: array<nat>, h: Key -> nat, idx: nat, last: nat,
                       ghost live: set<nat>)
    requires images != index as object
    requires idx <= last < images.Length && Indexed(images[..], index[..], h, live)
    requires idx in live && last in live
    modifies images, index
    ensures Indexed(images[..], index[..], h, live - {last})
    ensures images[..] == old(images[..])[idx := old(images[last])][last := DEFAULT_ENTRY]
  {
    hide Indexed;
    CompactUpdates(images[..], idx, last, images[idx].(active := false), DEFAULT_ENTRY);
    Unindex(images, index, h, idx, live);
    if idx != last {
      MoveEntry(images, index, h, last, idx, live - {idx});
      assert live - {idx} - {last} + {idx} == live - {last};
    }
    ghost var es := images[..];
    images[last] := DEFAULT_ENTRY;
    assert images[..] == es[last := DEFAULT_ENTRY];
    IndexedFrame(es, es[last := DEFAULT_ENTRY], index[..], h, live - {last});
  }

  datatype Image = Image(entry: ImageEntry, handle: Option<nat>)

  function HandleSet(handle: Option<nat>): set<nat> {
    if handle.Some? then {handle.value} else {}
  }

  ghost predicate DistinctKeys(es: seq<ImageEntry>) {
    forall i, j :: 0 <= i < j < |es| ==> KeyOf(es[i]) != KeyOf(es[j])
  }

  /** What a dense array of entries and its parallel array of handles represent. */
  ghost function ContentsOf(es: seq<ImageEntry>, hs: seq<Option<nat>>): map<Key, Image>
    requires |es| == |hs|
  {
    if |es| == 0 then map[]
    else
      var last := |es| - 1;
      ContentsOf(es[..last], hs[..last])[KeyOf(es[last]) := Image(es[last], hs[last])]
  }

  lemma ContentsAppend(es: seq<ImageEntry>, hs: seq<Option<nat>>, e: ImageEntry, h: Option<nat>)
    requires |es| == |hs|
    ensures ContentsOf(es + [e], hs + [h]) == ContentsOf(es, hs)[KeyOf(e) := Image(e, h)]
  {
    assert (es + [e])[..|es|] == es && (hs + [h])[..|hs|] == hs;
  }

  lemma {:induction false} ContentsAt(es: seq<ImageEntry>, hs: seq<Option<nat>>, i: nat)
    requires |es| == |hs| && i < |es| && DistinctKeys(es)
    ensures KeyOf(es[i]) in ContentsOf(es, hs)
    ensures ContentsOf(es, hs)[KeyOf(es[i])] == Image(es[i], hs[i])
  {
    var last := |es| - 1;
    if i < last {
      ContentsAt(es[..last], hs[..last], i);
    }
  }

  lemma {:induction false} ContentsKey(es: seq<ImageEntry>, hs: seq<Option<nat>>, k: Key) returns (i: int)
    requires |es| == |hs|
    ensures k in ContentsOf(es, hs) ==> 0 <= i < |es| && KeyOf(es[i]) == k
  {
    i := |es| - 1;
    if |es| > 0 && KeyOf(es[i]) != k {
      i := ContentsKey(es[..i], hs[..i], k);
    }
  }

  /** Swap-removal: the last element fills the hole and the array shrinks by one. */
  function SwapRemove<T>(s: seq<T>, i: nat): (r: seq<T>)
    requires i < |s|
    ensures |r| == |s| - 1
  {
    s[i := s[|s| - 1]][..|s| - 1]
  }

  lemma SwapRemoveInArray<T>(s: seq<T>, c: nat, i: nat, blank: T)
    requires i < c <= |s|
    ensures s[i := s[c - 1]][c - 1 := blank][..c - 1] == SwapRemove(s[..c], i)
  {
  }

  lemma SwapRemoveDistinct(es: seq<ImageEntry>, idx: nat)
    requires idx < |es| && DistinctKeys(es)
    ensures DistinctKeys(SwapRemove(es, idx))
    ensures forall i :: 0 <= i < |es| - 1 ==>
              && SwapRemove(es, idx)[i] == es[if i == idx then |es| - 1 else i]
              && KeyOf(SwapRemove(es, idx)[i]) != KeyOf(es[idx])
  {
  }

  /** Swap-removal deletes exactly one key from what the arrays represent. */
  lemma SwapRemoveContents(es: seq<ImageEntry>, hs: seq<Option<nat>>, idx: nat)
    requires |es| == |hs| && idx < |es| && DistinctKeys(es)
    ensures DistinctKeys(SwapRemove(es, idx))
    ensures ContentsOf(SwapRemove(es, idx), SwapRemove(hs, idx)) == ContentsOf(es, hs) - {KeyOf(es[idx])}
  {
    hide ContentsOf;
    SwapRemoveDistinct(es, idx);
    var es', hs' := SwapRemove(es, idx), SwapRemove(hs, idx);
    var m, m' := ContentsOf(es, hs), ContentsOf(es', hs');
    var last := |es| - 1;
    ContentsAt(es, hs, idx);
    forall k | k in m && k != KeyOf(es[idx]) ensures k in m' && m'[k] == m[k] {
      var i := ContentsKey(es, hs, k);
      ContentsAt(es, hs, i);
      ContentsAt(es', hs', if i == last then idx else i);
    }
    forall k | k in m' ensures k in m && k != KeyOf(es[idx]) {
      var i := ContentsKey(es', hs', k);
      ContentsAt(es, hs, if i == idx then last else i);
    }
  }

  lemma IndexedDistinct(images: seq<ImageEntry>, ix: seq<nat>, h: Key -> nat, c: nat)
    requires Indexed(images, ix, h, Range(c)) && c <= |images|
    ensures DistinctKeys(images[..c])
  {
    forall i, j | 0 <= i < j < c ensures KeyOf(images[i]) != KeyOf(images[j]) {
      assert i in Range(c) && j in Range(c);
      assert Keys(images)[i] == KeyOf(images[i]) && Keys(images)[j] == KeyOf(images[j]);
    }
  }

  /** The index, as an abstract lookup table, answers like a linear scan. */
  lemma IndexAgreesWithScan(images: seq<ImageEntry>, ix: seq<nat>, h: Key -> nat, c: nat, k: Key, r: Option<nat>)
    requires Indexed(images, ix, h, Range(c)) && c <= |images|
    requires r.Some? ==> r.value < c && KeyOf(images[r.value]) == k
    requires r.None? ==> forall e :: e in Range(c) ==> KeyOf(images[e]) != k
    ensures r == LinearScan(images[..c], k)
  {
    IndexedDistinct(images, ix, h, c);
    var scan := LinearScan(images[..c], k);
    assert scan.Some? ==> scan.value in Range(c);
    if r.Some? {
      assert r.value in Range(c);
      assert images[..c][r.value].active;
    }
  }

  class Table {
    const hash: Key -> nat
    const images: array<ImageEntry>
    const index: array<nat>
    const handles: array<Option<nat>>
    const maxImages: nat
    const windowOverride: Option<int>
    var imageCount: nat
    var nextHandle: nat
    var closed: set<nat>

    ghost predicate Valid()
      reads this, images, index, handles
    {
      && images as object != index && images as object != handles && index as object != handles
      && images.Length == index.Length == handles.Length
      && imageCount <= maxImages <= images.Length
      && Indexed(images[..], index[..], hash, Range(imageCount))
      && (forall i :: 0 <= i < handles.Length ==> (handles[i].Some? <==> i < imageCount))
    }

    /** What the table represents. */
    ghost function Contents(): map<Key, Image>
      reads this, images, index, handles
      requires Valid()
    {
      ContentsOf(images[..imageCount], handles[..imageCount])
    }

    constructor (n: nat, hash: Key -> nat, maxImages: nat, windowOverride: Option<int>)
      requires HashFits(hash, n) && n < EMPTY
      ensures Valid() && Contents() == map[]
      ensures this.hash == hash && this.windowOverride == windowOverride
      ensures this.maxImages == if maxImages < n then maxImages else n
      ensures nextHandle == 0 && closed == {} && fresh(images) && fresh(index) && fresh(handles)
    {
      this.hash := hash;
      this.maxImages := if maxImages < n then maxImages else n;
      this.windowOverride := windowOverride;
      images := new ImageEntry[n](_ => DEFAULT_ENTRY);
      index := new nat[n](_ => EMPTY);
      handles := new Option<nat>[n](_ => None);
      imageCount, nextHandle, closed := 0, 0, {};
      new;
      var someKey := Key(0, 0);
      assert Probed(index[..], Keys(images[..]), hash, hash(someKey));
    }

    /** Lookup through the index agrees with a linear scan of the dense array. */
    method Find(k: Key) returns (r: Option<nat>)
      requires Valid()
      ensures r == LinearScan(images[..imageCount], k)
      ensures r.Some? <==> k in Contents()
    {
      hide Indexed;
      hide LinearScan;
      hide ContentsOf;
      r := FindImage(images, index, hash, k, Range(imageCount));
      IndexAgreesWithScan(images[..], index[..], hash, imageCount, k, r);
      ghost var es, hs := images[..imageCount], handles[..imageCount];
      IndexedDistinct(images[..], index[..], hash, imageCount);
      ghost var i := ContentsKey(es, hs, k);
      if r.Some? {
        ContentsAt(es, hs, r.value);
      } else if 0 <= i < imageCount {
        assert i in Range(imageCount);
      }
    }

    /** `on_setup` */
    method OnSetup(setup: SetupHeader, source: int) returns (created: Option<nat>)
      requires Valid()
      modifies this, images, index, handles
      ensures Valid()
      ensures created.Some? <==> Key(setup.sessionId, setup.streamId) !in old(Contents()) && old(imageCount) < maxImages
                                 && TermLengthOk(setup.termLength)
      ensures created.Some? ==> created.value == old(nextHandle)
      ensures var k := Key(setup.sessionId, setup.streamId);
              if k !in old(Contents()) && old(imageCount) < maxImages && TermLengthOk(setup.termLength)
              then
                && Contents()
                   == old(Contents())[k := Image(NewEntry(setup, source, windowOverride), Some(old(nextHandle)))]
                && imageCount == old(imageCount) + 1 && nextHandle == old(nextHandle) + 1
              else
                && Contents() == old(Contents())
                && imageCount == old(imageCount) && nextHandle == old(nextHandle)
      ensures closed == old(closed)
    {
      hide Indexed;
      hide LinearScan;
      hide ContentsOf;
      var k := Key(setup.sessionId, setup.streamId);
      var found := Find(k);
      created := None;
      if found.None? && imageCount < maxImages {
        if !TermLengthOk(setup.termLength) {
          return;
        }
        ghost var es, hs := images[..imageCount], handles[..imageCount];
        var entry := NewEntry(setup, source, windowOverride);
        Append(entry, Some(nextHandle));
        ContentsAppend(es, hs, entry, Some(nextHandle));
        created := Some(nextHandle);
        nextHandle := nextHandle + 1;
      }
    }

    /** Write the next dense slot and index it. */
    method Append(entry: ImageEntry, handle: Option<nat>)
      requires Valid() && imageCount < maxImages && entry.active && handle.Some?
      requires LinearScan(images[..imageCount], KeyOf(entry)).None?
      modifies this`imageCount, images, index, handles
      ensures Valid() && imageCount == old(imageCount) + 1
      ensures images[..imageCount] == old(images[..imageCount]) + [entry]
      ensures handles[..imageCount] == old(handles[..imageCount]) + [handle]
    {
      hide Range;
      hide Indexed;
      hide LinearScan;
      hide ContentsOf;
      ghost var live := Range(imageCount);
      ghost var before := images[..];
      var idx := imageCount;
      images[idx] := entry;
      handles[idx] := handle;
      ghost var after := images[..];
      IndexedFrame(before, after, index[..], hash, live);
      forall e | e in live ensures KeyOf(after[e]) != KeyOf(entry) {
        assert before[..idx][e] == after[e] && after[e].active;
      }
      IndexHasRoom(after, index[..], hash, live);
      InsertIndex(images, index, hash, idx, live);
      imageCount := idx + 1;
      assert live + {idx} == Range(imageCount);
      assert images[..imageCount] == before[..idx] + [entry];
    }

    /** `remove_image`: unindex, then swap the last entry into the hole and reindex it. */
    method RemoveImage(k: Key) returns (removed: bool)
      requires Valid()
      modifies this, images, index, handles
      ensures Valid()
      ensures removed <==> k in old(Contents())
      ensures Contents() == old(Contents()) - {k}
      ensures closed == old(closed) + (if removed then HandleSet(old(Contents())[k].handle) else {})
      ensures nextHandle == old(nextHandle)
    {
      hide Indexed;
      hide LinearScan;
      hide ContentsOf;
      var found := Find(k);
      if found.None? {
        return false;
      }
      var idx := found.value;
      ghost var es, hs := images[..imageCount], handles[..imageCount];
      IndexedDistinct(images[..], index[..], hash, imageCount);
      ContentsAt(es, hs, idx);
      SwapRemoveContents(es, hs, idx);
      closed := closed + HandleSet(handles[idx]);
      RemoveAt(idx);
      return true;
    }

    method RemoveAt(idx: nat)
      requires Valid() && idx < imageCount
      modifies this`imageCount, images, index, handles
      ensures Valid() && imageCount == old(imageCount) - 1
      ensures images[..imageCount] == SwapRemove(old(images[..imageCount]), idx)
      ensures handles[..imageCount] == SwapRemove(old(handles[..imageCount]), idx)
    {
      hide Indexed;
      hide LinearScan;
      hide ContentsOf;
      hide Range;
      var last := imageCount - 1;
      ghost var es, hs := images[..], handles[..];
      SwapRemoveInArray(es, imageCount, idx, DEFAULT_ENTRY);
      SwapRemoveInArray(hs, imageCount, idx, None);
      CompactImages(images, index, hash, idx, last, Range(imageCount));
      assert Range(imageCount) - {last} == Range(last);
      handles[idx] := None;
      if idx != last {
        handles[idx] := handles[last];
        handles[last] := None;
      }
      assert handles[..] == hs[idx := hs[last]][last := None];
      imageCount := last;
    }
  }

  // ---- Whole runs ----

  lemma {:induction false} ContentsSize(es: seq<ImageEntry>, hs: seq<Option<nat>>)
    requires |es| == |hs| && DistinctKeys(es)
    ensures |ContentsOf(es, hs)| == |es|
  {
    if |es| > 0 {
      var last := |es| - 1;
      ContentsSize(es[..last], hs[..last]);
      var m, k := ContentsOf(es[..last], hs[..last]), KeyOf(es[last]);
      var i := ContentsKey(es[..last], hs[..last], k);
      assert k !in m;
      assert m[k := Image(es[last], hs[last])].Keys == m.Keys + {k};
    }
  }

  datatype Call = SetupCall(setup: SetupHeader, source: int) | RemoveCall(key: Key) | FindCall(key: Key)

  /** The table as a plain map, with the number of handles given out. */
  datatype Model = Model(images: map<Key, Image>, nextHandle: nat)

  function ModelStep(m: Model, call: Call, maxImages: nat, windowOverride: Option<int>): Model {
    match call
    case SetupCall(setup, source) =>
      var k := Key(setup.sessionId, setup.streamId);
      if k !in m.images && |m.images| < maxImages && TermLengthOk(setup.termLength) then
        Model(m.images[k := Image(NewEntry(setup, source, windowOverride), Some(m.nextHandle))], m.nextHandle + 1)
      else m
    case RemoveCall(k) => m.(images := m.images - {k})
    case FindCall(_) => m
  }

  function ModelRun(calls: seq<Call>, maxImages: nat, windowOverride: Option<int>): Model {
    if |calls| == 0 then Model(map[], 0)
    else
      ModelStep(ModelRun(calls[..|calls| - 1], maxImages, windowOverride), calls[|calls| - 1], maxImages,
                windowOverride)
  }

  /** What a lookup or a removal tells its caller: whether the key is there. */
  predicate Present(calls: seq<Call>, i: nat, maxImages: nat, windowOverride: Option<int>)
    requires i < |calls|
  {
    !calls[i].SetupCall? && calls[i].key in ModelRun(calls[..i], maxImages, windowOverride).images
  }

  /**
   Every run of setups, removals and lookups on the table of 256 slots with the driver's own hash
   answers like the plain map, up to and including a completely full table.
   */
  method RefinesMap(calls: seq<Call>, maxImages: nat, windowOverride: Option<int>) returns (answers: seq<bool>)
    requires maxImages <= 256
    ensures |answers| == |calls|
    ensures forall i :: 0 <= i < |calls| ==> answers[i] == Present(calls, i, maxImages, windowOverride)
  {
    hide ContentsOf, Indexed, ModelStep, Range, ImageHash, Table.Valid, Table.Contents;
    var table := new Table(256, ImageHash, maxImages, windowOverride);
    answers := [];
    assert calls[..0] == [];
    for i := 0 to |calls|
      invariant fresh(table) && fresh(table.images) && fresh(table.index) && fresh(table.handles)
      invariant table.maxImages == maxImages && table.windowOverride == windowOverride && table.Valid()
      invariant Model(table.Contents(), table.nextHandle) == ModelRun(calls[..i], maxImages, windowOverride)
      invariant |answers| == i
      invariant forall j :: 0 <= j < i ==> answers[j] == Present(calls, j, maxImages, windowOverride)
    {
      assert calls[..i + 1][..i] == calls[..i];
      var answer := Serve(table, calls[i]);
      answers := answers + [answer];
    }
  }

  /** One call on the table is one step of the map. */
  method Serve(table: Table, call: Call) returns (answer: bool)
    requires table.Valid()
    modifies table, table.images, table.index, table.handles
    ensures table.Valid()
    ensures Model(table.Contents(), table.nextHandle)
         == ModelStep(old(Model(table.Contents(), table.nextHandle)), call, table.maxImages, table.windowOverride)
    ensures answer == (!call.SetupCall? && call.key in old(table.Contents()))
  {
    hide ContentsOf, Indexed, NewEntry, TermLengthOk;
    answer := false;
    match call {
      case SetupCall(setup, source) =>
        IndexedDistinct(table.images[..], table.index[..], table.hash, table.imageCount);
        ContentsSize(table.images[..table.imageCount], table.handles[..table.imageCount]);
        var _ := table.OnSetup(setup, source);
      case RemoveCall(k) =>
        answer := table.RemoveImage(k);
      case FindCall(k) =>
        var found := table.Find(k);
        answer := found.Some?;
    }
  }
}
