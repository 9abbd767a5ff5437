// The software virtual memory as the program text has it: a table of frame
// words with the dirty bit in the low bit, a slab of frames, the page cache, the
// crypto cache and the free list, changed in place.  Each method is proved to
// be a run of the paging protocol with one thread.
module Suvm {
  import opened Chains
  import opened Options
  import opened PageCacheModel
  import opened CryptoCacheModel
  import opened SuvmMachine
  import opened SuvmSteps
  import opened SuvmInvariant
  import opened SuvmAptrs
  import opened SuvmSafety
  import opened SuvmAlone
  import opened SuvmFlat

  /** aptr_t with m_base_page_index.  prm is the entry of the frame table that
      prm_ptr points to, or None for the dummy. */
  class AptrRef {
    var base: int
    var page: int
    var offset: int
    var prm: Option<nat>
    var hintWrite: bool
  }

  // ---- how the program's data represent a state of the protocol ----

  ghost predicate CountsTied(npages: nat, refc: map<int, int>, counts: seq<int>) {
    |counts| == npages && (forall p | p in refc :: 0 <= p < npages) &&
    forall p | 0 <= p < npages :: p in refc && refc[p] == counts[p]
  }

  ghost predicate CacheTied(cache: PageCache, npages: nat, cached: map<int, nat>, size: int, queue: seq<int>,
    refc: map<int, int>)
    reads cache, cache.Repr
  {
    && cache.Valid() && cache.cached == cached && cache.size == size && cache.Queue() == queue
    && CountsTied(npages, refc, cache.Counts())
  }

  /** A frame word is the address of the frame, plus one when the frame is dirty. */
  function Word(c: Config, base: int, f: nat, dirty: bool): int {
    base + f * c.pageSize + (if dirty then 1 else 0)
  }

  ghost predicate FramesTied(c: Config, base: int, frames: map<nat, FrameData>, words: seq<int>, slab: seq<seq<int>>) {
    |words| == c.cap && |slab| == c.cap &&
    forall f: nat | f < c.cap :: f in frames && frames[f].text == slab[f] &&
      words[f] == Word(c, base, f, frames[f].dirty)
  }

  ghost predicate CryptoTied(crypto: map<int, Meta>, items: map<int, CryptoItem>)
    reads set p | p in items :: items[p]
  {
    items.Keys == crypto.Keys &&
    forall p | p in items :: crypto[p] == Meta(items[p].nonce, items[p].tag)
  }

  ghost predicate RamTied(npages: nat, stored: map<int, seq<int>>, ram: seq<seq<int>>) {
    |ram| == npages && forall p | p in stored :: 0 <= p < |ram| && stored[p] == ram[p]
  }

  /** While an Aptr is being faulted in, its prm_ptr is stale. */
  ghost predicate AptrTied(x: Aptr, a: AptrRef, stale: bool)
    reads a
  {
    && a.base == x.base && a.page == x.page && a.offset == x.offset && a.hintWrite == x.hint
    && (!stale ==> a.prm == x.link)
  }

  ghost predicate AptrsTied(aptrs: map<nat, Aptr>, objs: map<nat, AptrRef>, stale: Option<nat>)
    reads set i | i in objs :: objs[i]
  {
    && objs.Keys == aptrs.Keys
    && (forall i | i in objs :: AptrTied(aptrs[i], objs[i], stale == Some(i)))
    && (forall i, j | i in objs && j in objs && i != j :: objs[i] != objs[j])
  }

  // ---- the state after initialisation ----

  ghost function Start(c: Config, list: seq<nat>, slab: seq<seq<int>>): State
    requires |slab| == c.cap
  {
    State(map t | t in c.threads :: Thread(Idle, 0, 0), map[], map[],
          map p {:trigger InStore(c, p)} | 0 <= p < c.npages :: 0, map[], 0, [], list,
          map f: nat | f < c.cap :: FrameData(slab[f], false),
          map[], map[], map[], map f: nat {:trigger InSlab(c, f)} | f < c.cap :: Free, map[])
  }

  predicate InStore(c: Config, p: int) { 0 <= p < c.npages }

  predicate InSlab(c: Config, f: nat) { f < c.cap }

  lemma StartTied(c: Config, base: int, list: seq<nat>, words: seq<int>, slab: seq<seq<int>>, counts: seq<int>,
    ram: seq<seq<int>>)
    requires Fit(c) && FramesBuilt(c, base, list, words, slab)
    requires |counts| == c.npages == |ram| && forall p | 0 <= p < c.npages :: counts[p] == 0
    ensures var s := Start(c, list, slab);
            && Init(c, s) && CountsTied(c.npages, s.refc, counts) && FramesTied(c, base, s.frames, words, slab)
            && RamTied(c.npages, s.ram, ram)
  {
  }

  lemma EmptyTied()
    ensures CryptoTied(map[], map[]) && AptrsTied(map[], map[], None)
  {
  }

  ghost predicate FramesBuilt(c: Config, base: int, list: seq<nat>, words: seq<int>, slab: seq<seq<int>>) {
    && |list| == |words| == |slab| == c.cap
    && forall f: nat | f < c.cap :: list[f] == f && words[f] == Word(c, base, f, false) && |slab[f]| == c.pageSize
  }

  /** Every frame of the slab is pushed onto the free list. */
  method BuildFrames(c: Config, base: int) returns (table: array<int>, slab: array<seq<int>>, list: seq<nat>)
    ensures fresh(table) && fresh(slab) && FramesBuilt(c, base, list, table[..], slab[..])
  {
    table := new int[c.cap];
    slab := new seq<int>[c.cap];
    list := [];
    var i: nat := 0;
    while i < c.cap
      invariant i <= c.cap && |list| == i
      invariant forall f: nat | f < i ::
          list[f] == f && table[f] == Word(c, base, f, false) && |slab[f]| == c.pageSize
    {
      table[i] := base + i * c.pageSize;
      slab[i] := seq(c.pageSize, _ => 0);
      list := list + [i];
      i := i + 1;
    }
  }

  ghost predicate Outside(items: map<int, CryptoItem>, parts: set<object>) {
    forall p | p in items :: items[p] as object !in parts
  }

  ghost predicate AptrsOutside(objs: map<nat, AptrRef>, parts: set<object>) {
    forall i | i in objs :: objs[i] as object !in parts
  }

  class Memory {
    const c: Config
    const me: nat
    const slabBase: int
    const cache: PageCache
    const llc: CryptoCache
    const epc: array<int>
    const slab: array<seq<int>>
    const ram: array<seq<int>>
    var free: seq<nat>
    ghost var st: State
    ghost var objs: map<nat, AptrRef>
    ghost var stale: Option<nat>      // the Aptr being faulted in

    /** The parts are separate objects; addresses and page sizes are even. */
    ghost predicate Fixed() {
      && Fit(c) && c.pageSize % 2 == 0 && slabBase % 2 == 0 && cache.usedPages.size == c.cap
      && cache in cache.Repr && cache.refCount in cache.Repr && epc !in cache.Repr &&
         slab as object !in cache.Repr && ram as object !in cache.Repr
      && this as object !in cache.Repr && llc as object !in cache.Repr && llc.buckets as object !in cache.Repr
      && slab != ram && epc as object != slab && epc as object != ram && epc as object != llc.buckets
      && slab as object != llc.buckets && ram as object != llc.buckets
    }

    ghost function Footprint(): set<object>
      reads this, llc
    {
      {this, cache, llc, llc.buckets, epc, slab, ram} + cache.Repr
      + (set p | p in llc.items :: llc.items[p]) + (set i | i in objs :: objs[i])
    }

    /** What the methods change, Aptrs apart. */
    ghost function Parts(): set<object>
      reads this, llc
    {
      {this, llc, llc.buckets, epc, slab, ram} + cache.Repr + (set p | p in llc.items :: llc.items[p])
    }

    /** The program's data represent the state st. */
    ghost predicate Tied()
      reads this, llc, Footprint()
    {
      && Fixed()
      && CacheTied(cache, c.npages, st.cache, st.size, st.queue, st.refc) && llc.Valid()
      && free == st.free
      && FramesTied(c, slabBase, st.frames, epc[..], slab[..])
      && CryptoTied(st.crypto, llc.items)
      && RamTied(c.npages, st.ram, ram[..])
      && AptrsTied(st.aptrs, objs, stale)
      && me in st.threads
      && Outside(llc.items, cache.Repr) && AptrsOutside(objs, cache.Repr)
    }

    constructor (config: Config, thread: nat, base: int, l1: PageCache, l2: CryptoCache,
                 table: array<int>, frames: array<seq<int>>, store: array<seq<int>>, list: seq<nat>)
      requires Fit(config) && config.pageSize % 2 == 0 && base % 2 == 0 && thread in config.threads
      requires l1.Valid() && l1.usedPages.size == config.cap && l1.cached == map[] && l1.Queue() == [] && l1.size == 0
      requires |l1.Counts()| == config.npages && forall p | 0 <= p < config.npages :: l1.Counts()[p] == 0
      requires l2.Valid() && l2.items == map[]
      requires FramesBuilt(config, base, list, table[..], frames[..]) && store.Length == config.npages
      requires l1 in l1.Repr && l1.refCount in l1.Repr && table !in l1.Repr && frames as object !in l1.Repr &&
               store as object !in l1.Repr
      requires l2 as object !in l1.Repr && l2.buckets as object !in l1.Repr
      requires frames != store && table as object != frames && table as object != store && table as object != l2.buckets
      requires frames as object != l2.buckets && store as object != l2.buckets
      ensures c == config && me == thread && Tied() && Init(c, st) && objs == map[] && stale == None
      ensures cache == l1 && llc == l2 && epc == table && slab == frames && ram == store
    {
      c, me, slabBase := config, thread, base;
      cache, llc, epc, slab, ram, free := l1, l2, table, frames, store, list;
      objs, stale := map[], None;
      st := Start(config, list, frames[..]);
      new;
      hide CountsTied, FramesTied, CryptoTied, RamTied, AptrsTied, Fit, Init, FramesBuilt;
      StartTied(config, base, list, epc[..], slab[..], cache.Counts(), ram[..]);
      EmptyTied();
    }

    /** Taking a frame from the back of the free list. */
    method TakeFrame() returns (f: nat)
      requires Tied() && st.free != []
      modifies this`free, this`st
      ensures Tied() && st == Pop(old(st), me) && f == old(st.free[|st.free| - 1]) && old(free) == free + [f]
    {
      hide CountsTied, CacheTied, FramesTied, CryptoTied, RamTied, AptrsTied;
      f := free[|free| - 1];
      free := free[..|free| - 1];
      st := Pop(st, me);
    }

    method PushFrame(f: nat)
      requires Tied()
      modifies this`free, this`st
      ensures Tied() && st == Push(old(st), me, f) && free == old(free) + [f]
    {
      hide CountsTied, CacheTied, FramesTied, CryptoTied, RamTied, AptrsTied;
      free := free + [f];
      st := Push(st, me, f);
    }

    method FindVictim(ghost j: nat) returns (item: Item)
      requires CacheTied(cache, c.npages, st.cache, st.size, st.queue, st.refc)
      requires cache.Valid() && cache.hand == {} && FirstUnpinned(cache.Queue(), cache.Counts(), j)
      modifies cache.Repr
      ensures j < |st.queue| && CacheTied(cache, c.npages, st.cache, st.size, Rotation(st.queue, j)[1..], st.refc)
      ensures item.page == st.queue[j] && item.page in st.cache && item.epc == st.cache[item.page]
      ensures cache.hand == {item.page} && item.page in st.refc && st.refc[item.page] == 0
    {
      VictimCounted(c.npages, st.refc, cache.Counts(), st.queue[j]);
      hide CountsTied;
      item := cache.PageIndexToEvict(j);
    }

    /** get_page_index_to_evict, which passes over j pinned pages. */
    method ChooseVictim(ghost j: nat) returns (item: Item)
      requires Tied() && cache.Valid() && cache.hand == {} && FirstUnpinned(cache.Queue(), cache.Counts(), j)
      modifies this`st, cache.Repr
      ensures Tied() && st == Chosen(c, old(st), me, j) && item == Item(old(st.queue[j]), st.cache[old(st.queue[j])])
      ensures cache.hand == {item.page} && llc.items == old(llc.items)
      ensures objs == old(objs) && stale == old(stale)
    {
      hide CacheTied, CountsTied, FramesTied, CryptoTied, RamTied, AptrsTied, PageCache.Valid, FirstUnpinned;
      item := FindVictim(j);
      st := Chosen(c, st, me, j);
    }

    /** The write-back of frame f: its text goes to the store of page q in
        encrypted form, and nonce and tag to the crypto item of the page. */
    method Encrypt(q: nat, f: nat, nonce: int, ghost crypto: map<int, Meta>)
      requires llc.Valid() && CryptoTied(crypto, llc.items)
      requires q < ram.Length && f < slab.Length && ram != slab && ram as object != llc.buckets
      modifies llc, llc.buckets, ram, set p | p in llc.items :: llc.items[p]
      ensures llc.Valid() && CryptoTied(crypto[q := Meta(nonce, c.enc(slab[f], nonce).1)], llc.items)
      ensures ram[..] == old(ram[..])[q := c.enc(slab[f], nonce).0]
      ensures forall p | p in llc.items ::
                fresh(llc.items[p]) || (p in old(llc.items) && llc.items[p] == old(llc.items[p]))
    {
      hide ChainsOk;
      ItemsApart(llc);
      var item := llc.Add(q);
      item.nonce := nonce;
      var (ct, tag) := c.enc(slab[f], nonce);
      ram[q] := ct;
      item.tag := tag;
    }

    method ClearWord(f: nat, ghost frames: map<nat, FrameData>)
      requires FramesTied(c, slabBase, frames, epc[..], slab[..]) && f in frames && f < c.cap
      requires c.pageSize % 2 == 0 && slabBase % 2 == 0 && epc as object != slab
      modifies epc
      ensures FramesTied(c, slabBase, frames[f := frames[f].(dirty := false)], epc[..], slab[..])
    {
      WordParity(c, slabBase, frames, epc[..], slab[..], f);
      hide FramesTied;
      ghost var words := epc[..];
      var word := epc[f];
      epc[f] := word - word % 2;
      assert epc[..] == words[f := word - word % 2];
    }

    method StoreDirty(q: nat, f: nat, nonce: int)
      requires Tied() && f in st.frames && f < c.cap && st.frames[f].dirty && q < c.npages
      modifies epc, llc, llc.buckets, ram, set p | p in llc.items :: llc.items[p]
      ensures Fixed() && CacheTied(cache, c.npages, st.cache, st.size, st.queue, st.refc) && llc.Valid()
      ensures FramesTied(c, slabBase, st.frames[f := st.frames[f].(dirty := false)], epc[..], slab[..])
      ensures CryptoTied(st.crypto[q := Meta(nonce, c.enc(st.frames[f].text, nonce).1)], llc.items)
      ensures RamTied(c.npages, st.ram[q := c.enc(st.frames[f].text, nonce).0], ram[..])
      ensures AptrsTied(st.aptrs, objs, stale) && Outside(llc.items, cache.Repr)
      ensures forall p | p in llc.items ::
                fresh(llc.items[p]) || (p in old(llc.items) && llc.items[p] == old(llc.items[p]))
    {
      hide CacheTied, FramesTied, CryptoTied, RamTied, AptrsTied;
      RamSize(c, slabBase, st.frames, epc[..], slab[..], st.ram, ram[..], q, c.enc(st.frames[f].text, nonce).0);
      FrameText(c, slabBase, st.frames, epc[..], slab[..], f);
      ClearWord(f, st.frames);
      assert CacheTied(cache, c.npages, st.cache, st.size, st.queue, st.refc);
      Encrypt(q, f, nonce, st.crypto);
    }

    /** The first half of try_evict_page for a dirty frame: it is cleared and
        written back. */
    method WriteBack(q: nat, f: nat, nonce: int)
      requires Tied() && f in st.frames && f < c.cap && st.frames[f].dirty && q < c.npages
      modifies this`st, epc, llc, llc.buckets, ram, set p | p in llc.items :: llc.items[p]
      ensures Tied() && st == Seal(c, ClearDirty(old(st), me, q, f, nonce), me, q, f)
      ensures forall p | p in llc.items ::
                fresh(llc.items[p]) || (p in old(llc.items) && llc.items[p] == old(llc.items[p]))
    {
      hide CacheTied, FramesTied, CryptoTied, RamTied, AptrsTied, ClearDirty, Seal;
      SealFields(c, st, me, q, f, nonce);
      StoreDirty(q, f, nonce);
      st := Seal(c, ClearDirty(st, me, q, f, nonce), me, q, f);
    }
  
    method RemovePage(q: nat)
      requires CacheTied(cache, c.npages, st.cache, st.size, st.queue, st.refc) && q in st.cache && q !in st.queue
      modifies cache.Repr
      ensures CacheTied(cache, c.npages, st.cache - {q}, st.size - 1, st.queue, st.refc)
      ensures cache.hand == old(cache.hand) - {q as int}
    {
      hide CountsTied;
      var found := cache.Remove(q);
    }

    /** The second half of try_evict_page: the page leaves the cache. */
    method DropPage(q: nat, f: nat)
      requires Tied() && q in st.cache && q !in st.queue
      modifies this`st, cache.Repr
      ensures Tied() && st == Unlink(c, Uncount(old(st), me, q, f), me, q, f) && llc.items == old(llc.items)
      ensures cache.hand == old(cache.hand) - {q as int}
      ensures objs == old(objs) && stale == old(stale)
    {
      hide CacheTied, CountsTied, FramesTied, CryptoTied, RamTied, AptrsTied;
      RemovePage(q);
      st := Unlink(c, Uncount(st, me, q, f), me, q, f);
    }

    method AddAndLink(ghost id: nat, a: AptrRef, p: nat, f: nat)
      requires Tied() && stale == Some(id) && id in objs && objs[id] == a
      requires p < c.npages && p !in st.cache && |st.queue| < c.cap
      modifies cache.Repr, a`prm
      ensures Fixed() && CacheTied(cache, c.npages, st.cache[p := f], st.size + 1, st.queue + [p], st.refc)
      ensures id in st.aptrs && AptrsTied(st.aptrs[id := st.aptrs[id].(link := Some(f))], objs, None)
      ensures llc.Valid() && FramesTied(c, slabBase, st.frames, epc[..], slab[..]) && CryptoTied(st.crypto, llc.items)
      ensures RamTied(c.npages, st.ram, ram[..])
      ensures cache.hand == old(cache.hand)
    {
      hide CacheTied, CountsTied, FramesTied, CryptoTied, RamTied, AptrsTied;
      TryAddPage(p, f);
      LinkAptr(id, a, f, st.aptrs);
    }

    /** try_add by a thread that has not lost a race, and the final link. */
    method AddPage(ghost id: nat, a: AptrRef, p: nat, f: nat)
      requires Tied() && stale == Some(id) && id in objs && objs[id] == a && id in st.aptrs
      requires p < c.npages && p !in st.cache && |st.queue| < c.cap && st.threads[me].a == id && st.threads[me].p == p
      modifies this`st, this`stale, cache.Repr, a`prm
      ensures Tied() && stale == None && cache.hand == old(cache.hand)
      ensures st == Added(c, old(st), me, f) && llc.items == old(llc.items)
      ensures objs == old(objs)
    {
      hide CacheTied, CountsTied, FramesTied, CryptoTied, RamTied, AptrsTied, Added;
      AddedFields(c, st, me, f);
      AddAndLink(id, a, p, f);
      st := Added(c, st, me, f);
      stale := None;
    }

    method TryAddPage(p: nat, f: nat)
      requires Fixed() && CacheTied(cache, c.npages, st.cache, st.size, st.queue, st.refc)
      requires p < c.npages && p !in st.cache && |st.queue| < c.cap
      modifies cache.Repr
      ensures CacheTied(cache, c.npages, st.cache[p := f], st.size + 1, st.queue + [p], st.refc)
      ensures cache.hand == old(cache.hand)
    {
      hide Fit;
      var ok := cache.TryAdd(p, f);
    }

    method LinkAptr(ghost id: nat, a: AptrRef, f: nat, ghost aptrs: map<nat, Aptr>)
      requires AptrsTied(aptrs, objs, Some(id)) && id in objs && objs[id] == a
      modifies a`prm
      ensures id in aptrs && AptrsTied(aptrs[id := aptrs[id].(link := Some(f))], objs, None)
    {
      a.prm := Some(f);
    }
  
    method DropAndShift(ghost id: nat, a: AptrRef)
      requires Tied() && stale == None && id in objs && objs[id] == a && id in st.aptrs
      requires st.aptrs[id].pin == st.aptrs[id].link.Some?
      requires st.aptrs[id].pin ==> 0 <= PageOf(st.aptrs[id]) < c.npages
      modifies cache.refCount, a`page, a`offset
      ensures Fixed() && cache.hand == old(cache.hand) && llc.Valid()
      ensures st.aptrs[id].pin ==> PageOf(st.aptrs[id]) in st.refc
      ensures CacheTied(cache, c.npages, st.cache, st.size, st.queue, Dropped(st, st.aptrs[id]))
      ensures AptrsTied(st.aptrs[id := Shifted(c, st.aptrs[id])], objs, Some(id))
      ensures FramesTied(c, slabBase, st.frames, epc[..], slab[..]) && CryptoTied(st.crypto, llc.items)
      ensures RamTied(c.npages, st.ram, ram[..])
    {
      hide CacheTied, CountsTied, FramesTied, CryptoTied, RamTied, AptrsTied;
      LinkedField(st.aptrs, objs, id);
      CountedPages(cache, c.npages, st.cache, st.size, st.queue, st.refc);
      if a.prm.Some? {
        DropCount(a.base + a.page, st.refc);
      }
      Shift(id, a, st.aptrs);
    }

    /** The count of the page that the Aptr was linked to is dropped, and the
        Aptr takes its new page and offset. */
    method GiveUpLink(ghost id: nat, a: AptrRef)
      requires Tied() && stale == None && id in objs && objs[id] == a && id in st.aptrs
      requires st.aptrs[id].pin == st.aptrs[id].link.Some?
      requires st.aptrs[id].pin ==> 0 <= PageOf(st.aptrs[id]) < c.npages
      modifies this`st, this`stale, cache.refCount, a`page, a`offset
      ensures Tied() && stale == Some(id) && cache.hand == old(cache.hand)
      ensures old(st.aptrs[id].pin) ==> PageOf(old(st.aptrs[id])) in old(st.refc)
      ensures st == Begun(c, old(st), me, id)
    {
      hide CacheTied, CountsTied, FramesTied, CryptoTied, RamTied, AptrsTied;
      DropAndShift(id, a);
      st := Begun(c, st, me, id);
      stale := Some(id);
    }

    method DropCount(p: nat, ghost refc: map<int, int>)
      requires CacheTied(cache, c.npages, st.cache, st.size, st.queue, refc) && p < c.npages && p in refc
      modifies cache.refCount
      ensures CacheTied(cache, c.npages, st.cache, st.size, st.queue, refc[p := (refc[p] - 1) % 256])
      ensures cache.hand == old(cache.hand)
    {
      cache.DecRefCount(p);
    }

    method Shift(ghost id: nat, a: AptrRef, ghost aptrs: map<nat, Aptr>)
      requires AptrsTied(aptrs, objs, None) && id in objs && objs[id] == a && c.pageSize > 0
      modifies a`page, a`offset
      ensures id in aptrs && AptrsTied(aptrs[id := Shifted(c, aptrs[id])], objs, Some(id))
    {
      var tmpPage := a.offset / c.pageSize;
      var tmpOffset := a.offset % c.pageSize;
      var realPage := a.page + tmpPage;
      a.offset := tmpOffset;
      a.page := realPage;
    }

    /** inc_ref_count for the page of the fault. */
    method CountFault(p: nat)
      requires Tied() && st.threads[me].p == p && p < c.npages && st.threads[me].a in st.aptrs && p in st.refc
      modifies this`st, cache.refCount
      ensures Tied() && cache.hand == old(cache.hand) && st == Increment(old(st), me)
    {
      hide CacheTied, CountsTied, FramesTied, CryptoTied, RamTied, AptrsTied;
      RaiseCount(p, st.refc);
      PinTied(st.aptrs, objs, stale, st.threads[me].a);
      st := Increment(st, me);
    }

    method RaiseCount(p: nat, ghost refc: map<int, int>)
      requires CacheTied(cache, c.npages, st.cache, st.size, st.queue, refc) && p < c.npages && p in refc
      modifies cache.refCount
      ensures CacheTied(cache, c.npages, st.cache, st.size, st.queue, refc[p := (refc[p] + 1) % 256])
      ensures cache.hand == old(cache.hand)
    {
      cache.IncRefCount(p);
    }

    /** A page that has been written back before is decrypted into the frame. */
    method FillFrame(p: nat, f: nat)
      requires Tied() && st.threads[me].pc == AtLoad(f) && st.threads[me].p == p && f in st.frames && f < c.cap
      requires p in st.crypto ==> Sealed(c, st, p)
      modifies this`st, slab
      ensures Tied() && st == Load(c, old(st), me, f)
      ensures cache.hand == old(cache.hand) && llc.items == old(llc.items)
    {
      hide CacheTied, CountsTied, FramesTied, CryptoTied, RamTied, AptrsTied, Load, Sealed;
      LoadFields(c, st, me, f);
      Decrypt(p, f);
      st := Load(c, st, me, f);
    }

    method Decrypt(p: nat, f: nat)
      requires Tied() && st.threads[me].pc == AtLoad(f) && st.threads[me].p == p && f in st.frames && f < c.cap
      requires p in st.crypto ==> Sealed(c, st, p)
      modifies slab
      ensures FramesTied(c, slabBase, Load(c, st, me, f).frames, epc[..], slab[..])
    {
      hide CacheTied, CountsTied, FramesTied, CryptoTied, RamTied, AptrsTied, Load, Sealed;
      StoredItem(llc, st.crypto, c.npages, st.ram, ram[..], p);
      LoadFields(c, st, me, f);
      FrameText(c, slabBase, st.frames, epc[..], slab[..], f);
      var item := llc.Get(p);
      if item != null {
        var text := c.dec(ram[p], item.nonce, item.tag).value;
        RefillTied(c, slabBase, st.frames, epc[..], slab[..], f, text);
        PutText(f, text);
      }
    }

    method PutText(f: nat, text: seq<int>)
      requires f < slab.Length
      modifies slab
      ensures slab[..] == old(slab[..])[f := text]
    {
      slab[f] := text;
    }
  
    // ---- page_fault ----

    lemma Basics()
      requires Tied()
      ensures Fit(c) && me in st.threads && cache.refCount in cache.Repr
    {
    }

    method ClearFrame(q: nat, f: nat, nonce: int)
      requires Tied() && q < c.npages && f in st.frames && f < c.cap
      modifies this`st, epc, llc, llc.buckets, ram, set p | p in llc.items :: llc.items[p]
      ensures Tied() && st == Cleared(c, old(st), me, q, f, nonce)
      ensures forall p | p in llc.items ::
                fresh(llc.items[p]) || (p in old(llc.items) && llc.items[p] == old(llc.items[p]))
      ensures objs == old(objs) && stale == old(stale)
    {
      hide CacheTied, FramesTied, CryptoTied, RamTied, AptrsTied;
      DirtyBit(f);
      if epc[f] % 2 == 1 {
        WriteBack(q, f, nonce);
      } else {
        st := ClearDirty(st, me, q, f, nonce);
      }
    }

    /** try_evict_page: a dirty page is written back, and the page's frame is free. */
    method TryEvictPage(item: Item, nonce: int)
      requires Tied() && cache.hand == {item.page} && st.threads[me].pc == AtClear(item.page, item.epc)
      requires item.page in st.cache && item.page !in st.queue && 0 <= item.page < c.npages
      requires item.epc in st.frames && item.epc < c.cap
      modifies this`free, this`st, cache.Repr, epc, llc, llc.buckets, ram, set p | p in llc.items :: llc.items[p]
      ensures Tied() && cache.hand == {}
      ensures st == Evicted(c, old(st), me, item.page, item.epc, nonce)
      ensures st.cache == old(st.cache) - {item.page} && free == old(free) + [item.epc] && st.mem == old(st.mem)
      ensures forall p | p in llc.items ::
                fresh(llc.items[p]) || (p in old(llc.items) && llc.items[p] == old(llc.items[p]))
      ensures objs == old(objs) && stale == old(stale)
    {
      hide CacheTied, FramesTied, CryptoTied, RamTied, AptrsTied, Cleared, Uncount, Unlink, Push, Memory.Tied;
      var q, f := item.page, item.epc;
      SeenFree();
      EvictedIs(c, st, me, q, f, nonce);
      ClearFrame(q, f, nonce);
      DropPage(q, f);
      PushFrame(f);
      SeenFree();
    }

    lemma SeenFree()
      requires Tied()
      ensures free == st.free && c.nbuckets > 0 && me in st.threads
    {
    }

    lemma DirtyBit(f: nat)
      requires Tied() && f < c.cap
      ensures f < epc.Length && f in st.frames && (epc[f] % 2 == 1 <==> st.frames[f].dirty)
    {
      WordParity(c, slabBase, st.frames, epc[..], slab[..], f);
    }

    /** The counts as the protocol has them. */
    lemma SeenCounts()
      requires Tied()
      ensures cache.Valid() && st.queue == cache.Queue() && |cache.Counts()| == c.npages
      ensures forall p | 0 <= p < c.npages :: p in st.refc && st.refc[p] == cache.Counts()[p]
    {
    }

    /** get_page_index_to_evict and try_evict_page: one page, the first of the
        queue that is not pinned, leaves the cache, and its frame is free. */
    method EvictPage(nonce: int)
      requires Tied() && cache.hand == {} && Alone(st, me) && st.threads[me].pc.AtDequeue?
      requires exists q :: q in st.cache && q in st.refc && st.refc[q] == 0
      requires Inv(c, st)
      modifies this`free, this`st, cache.Repr, epc, llc, llc.buckets, ram, set p | p in llc.items :: llc.items[p]
      ensures Tied() && cache.hand == {} && Onward(c, old(st), st, me) && st.threads[me].pc.AtPop?
      ensures st.cache.Keys <= old(st.cache.Keys)
      ensures forall p | p in llc.items ::
                fresh(llc.items[p]) || (p in old(llc.items) && llc.items[p] == old(llc.items[p]))
      ensures objs == old(objs) && stale == old(stale)
    {
      hide Inv, Onward, Memory.Tied, FirstUnpinned, Chosen, Evicted, Alone;
      Basics();
      SeenCounts();
      ghost var j := EvictionPlan(c, st, me, cache.Counts(), nonce);
      var item := ChooseVictim(j);
      TryEvictPage(item, nonce);
    }
  
    /** From the test of the size to the pop: a page is evicted when the cache
        is within slack of full. */
    method MakeRoom(nonce: int)
      requires Tied() && cache.hand == {} && Alone(st, me) && st.threads[me].pc.AtTest?
      requires st.size < c.cap - c.slack || exists q :: q in st.cache && q in st.refc && st.refc[q] == 0
      requires Inv(c, st)
      modifies this`free, this`st, cache.Repr, epc, llc, llc.buckets, ram, set p | p in llc.items :: llc.items[p]
      ensures Tied() && cache.hand == {} && Onward(c, old(st), st, me) && st.threads[me].pc.AtPop?
      ensures st.cache.Keys <= old(st.cache.Keys)
      ensures forall p | p in llc.items ::
                fresh(llc.items[p]) || (p in old(llc.items) && llc.items[p] == old(llc.items[p]))
      ensures objs == old(objs) && stale == old(stale)
    {
      hide Inv, Onward, Memory.Tied;
      Basics();
      SeenSize();
      ghost var s0 := st;
      TestPlan(c, st, me);
      if cache.size >= c.cap - c.slack {
        Retie(TestSize(c, st, me));
        ghost var s1 := st;
        EvictPage(nonce);
        OnwardOn(c, s0, s1, st, me);
      } else {
        Retie(TestSize(c, st, me));
      }
    }

    /** A step that changes none of the program's data. */
    ghost method Retie(s: State)
      requires Tied() && s == st.(threads := s.threads) && me in s.threads
      modifies this`st
      ensures Tied() && st == s && llc.items == old(llc.items) && cache.hand == old(cache.hand)
    {
      hide CacheTied, FramesTied, CryptoTied, RamTied, AptrsTied;
      st := s;
    }

    lemma SeenNames()
      requires Tied()
      ensures objs.Keys == st.aptrs.Keys
    {
    }

    lemma SeenSize()
      requires Tied()
      ensures cache.size == st.size && cache.cached == st.cache && cache.Valid()
    {
    }

    /** Popping a frame, filling it, adding it under the page and linking the Aptr. */
    method Refill(ghost id: nat, a: AptrRef, p: nat)
      requires Tied() && stale == Some(id) && id in objs && objs[id] == a && Alone(st, me) && st.threads[me].pc.AtPop?
      requires st.threads[me].a == id && st.threads[me].p == p && p !in st.cache
      requires Inv(c, st)
      modifies this`free, this`st, this`stale, cache.Repr, slab, a`prm
      ensures Tied() && stale == None && cache.hand == old(cache.hand) && Onward(c, old(st), st, me)
      ensures st.threads[me].pc.Idle? && id in st.aptrs && st.aptrs[id].link.Some?
      ensures llc.items == old(llc.items)
      ensures objs == old(objs)
    {
      hide Inv, Onward, Memory.Tied, Pop, Load, Added, Alone;
      Basics();
      ghost var s0 := st;
      PopPlan(c, st, me);
      var f := TakeFrame();
      ghost var s1 := st;
      LoadPlan(c, s1, me, f);
      FillFrame(p, f);
      OnwardOn(c, s0, s1, st, me);
      ghost var s2 := st;
      AddOnwardAll(c, s2, me, f);
      AddPage(id, a, p, f);
      OnwardOn(c, s0, s2, st, me);
    }

    method FindPage(p: nat) returns (it: Option<nat>)
      requires Tied()
      ensures Tied() && it == if p in st.cache then Some(st.cache[p]) else None
    {
      SeenSize();
      hide CacheTied, FramesTied, CryptoTied, RamTied, AptrsTied;
      it := cache.Get(p);
    }

    /** The page is cached already: the Aptr is linked to its frame. */
    method LinkMinor(ghost id: nat, a: AptrRef, f: nat)
      requires Tied() && stale == Some(id) && id in objs && objs[id] == a && st.threads[me].a == id && id in st.aptrs
      requires st.threads[me].p in st.cache && st.cache[st.threads[me].p] == f
      modifies this`st, this`stale, a`prm
      ensures Tied() && stale == None && cache.hand == old(cache.hand) && llc.items == old(llc.items)
      ensures st == Lookup(old(st), me)
    {
      hide CacheTied, FramesTied, CryptoTied, RamTied, AptrsTied;
      LinkAptr(id, a, f, st.aptrs);
      st := Lookup(st, me);
      stale := None;
    }

    /** No fault is in progress, and the program's data represent a state that
        a run has reached. */
    ghost predicate Ready()
      reads this, llc, Footprint()
    {
      Tied() && stale == None && cache.hand == {} && Inv(c, st) && AllIdle(st)
    }

    lemma StartReady()
      requires Tied() && Init(c, st) && stale == None && Fit(c)
      ensures Ready()
    {
      InitKeeps(c, st);
      hide Inv;
      assert cache.Valid() && cache.cached == map[];
    }

    lemma Positive()
      requires Ready()
      ensures c.pageSize > 0
    {
    }

    /** Aptr a is this thread's, under the name id, and can be faulted in. */
    ghost predicate Faultable(id: nat, a: AptrRef)
      reads this
    {
      && id in objs && objs[id] == a && id in st.aptrs && Fit(c) && Enabled(c, st, BeginFault(me, id))
      && CanFault(c, st, me, id) && |Pins(st, PageOf(Shifted(c, st.aptrs[id])))| < 255
    }

    /** A page that is not cached: make room and fill a frame. */
    method MajorFault(ghost id: nat, a: AptrRef, p: nat, nonce: int)
      requires Tied() && stale == Some(id) && id in objs && objs[id] == a && cache.hand == {}
      requires Alone(st, me) && st.threads[me].pc.AtTest? && st.threads[me].a == id && st.threads[me].p == p &&
               id in st.aptrs
      requires p !in st.cache && HasRoom(c, st, p)
      requires Inv(c, st)
      modifies this`free, this`st, this`stale, cache.Repr, epc, slab, llc, llc.buckets, ram, a`prm
      modifies set p | p in llc.items :: llc.items[p]
      ensures Tied() && stale == None && cache.hand == {} && Onward(c, old(st), st, me)
      ensures st.threads[me].pc.Idle? && id in st.aptrs && st.aptrs[id].link.Some?
      ensures forall p | p in llc.items ::
                fresh(llc.items[p]) || (p in old(llc.items) && llc.items[p] == old(llc.items[p]))
      ensures objs == old(objs)
    {
      hide Inv, Onward, Memory.Tied, TestSize;
      Basics();
      ghost var s0 := st;
      MakeRoom(nonce);
      OnwardInv(c, s0, st, me);
      OnwardAptr(c, s0, st, me);
      ghost var s1 := st;
      Refill(id, a, p);
      OnwardOn(c, s0, s1, st, me);
    }

    /** After the count: link at once if the page is cached. */
    method Resolve(ghost id: nat, a: AptrRef, p: nat, nonce: int)
      requires Tied() && stale == Some(id) && id in objs && objs[id] == a && cache.hand == {}
      requires Alone(st, me) && st.threads[me].pc.AtGet? && st.threads[me].a == id && st.threads[me].p == p
      requires HasRoom(c, st, p)
      requires Inv(c, st)
      modifies this`free, this`st, this`stale, cache.Repr, epc, slab, llc, llc.buckets, ram, a`prm
      modifies set p | p in llc.items :: llc.items[p]
      ensures Tied() && stale == None && cache.hand == {} && Onward(c, old(st), st, me)
      ensures st.threads[me].pc.Idle? && id in st.aptrs && st.aptrs[id].link.Some?
      ensures forall p | p in llc.items ::
                fresh(llc.items[p]) || (p in old(llc.items) && llc.items[p] == old(llc.items[p]))
      ensures objs == old(objs)
    {
      hide Inv, Onward, Memory.Tied, Lookup, HasRoom, Alone;
      Basics();
      ghost var s0 := st;
      LookupPlan(c, st, me);
      var it := FindPage(p);
      if it.Some? {
        HitPlan(c, st, me);
        LinkMinor(id, a, it.value);
      } else {
        MissPlan(c, st, me);
        Retie(Lookup(st, me));
        ghost var s1 := st;
        MajorFault(id, a, p, nonce);
        OnwardOn(c, s0, s1, st, me);
      }
    }

    /** page_fault: from any such state the Aptr ends linked, in its page, at
        the address it had, and no byte of the flat memory has changed. */
    method PageFault(ghost id: nat, a: AptrRef, nonce: int)
      requires Ready() && Faultable(id, a)
      modifies this`free, this`st, this`stale, cache.Repr, epc, slab, llc, llc.buckets, ram, a
      modifies set p | p in llc.items :: llc.items[p]
      ensures Ready() && objs == old(objs) && Reaches(c, old(st), st)
      ensures FaultDone(c, old(st), st, id)
      ensures forall p | p in llc.items ::
                fresh(llc.items[p]) || (p in old(llc.items) && llc.items[p] == old(llc.items[p]))
    {
      hide Inv, Onward, Memory.Tied, Reaches, Enabled, CanFault, FaultDone, Begun;
      ghost var s0 := st;
      Basics();
      BeginPlan(c, st, me, id);
      GiveUpLink(id, a);
      ghost var s1 := st;
      CountPlan(c, s1, me);
      SeenPage(id);
      var p := a.base + a.page;
      CountFault(p);
      ghost var s2 := st;
      Resolve(id, a, p, nonce);
      OnwardOn(c, s1, s2, st, me);
      FaultEnds(c, s0, s1, st, me, id);
    }

    lemma SeenPage(id: nat)
      requires Tied() && id in objs
      ensures id in st.aptrs && objs[id].base + objs[id].page == PageOf(st.aptrs[id])
      ensures objs[id].offset == st.aptrs[id].offset && objs[id].hintWrite == st.aptrs[id].hint
    {
      assert AptrTied(st.aptrs[id], objs[id], stale == Some(id));
    }
  
    // ---- deref ----

    /** The dirty bit is set in the frame's word when the Aptr has hint_write. */
    method MarkDirty(ghost id: nat, a: AptrRef) returns (f: nat)
      requires Tied() && stale == None && id in objs && objs[id] == a && id in st.aptrs
      requires st.aptrs[id].link.Some? && st.aptrs[id].link.value in st.frames && st.aptrs[id].link.value < c.cap
      modifies this`st, epc
      ensures Tied() && Some(f) == st.aptrs[id].link && st == Marked(old(st), id)
      ensures cache.hand == old(cache.hand) && llc.items == old(llc.items)
    {
      hide CacheTied, FramesTied, CryptoTied, RamTied, AptrsTied;
      LinkedField(st.aptrs, objs, id);
      f := a.prm.value;
      DirtyBit(f);
      if a.hintWrite {
        SetDirty(f, st.frames);
        MarkTied(st.aptrs, objs, id);
      }
      st := Marked(st, id);
    }

    method SetDirty(f: nat, ghost frames: map<nat, FrameData>)
      requires FramesTied(c, slabBase, frames, epc[..], slab[..]) && f in frames && f < c.cap
      requires c.pageSize % 2 == 0 && slabBase % 2 == 0 && epc as object != slab
      modifies epc
      ensures FramesTied(c, slabBase, frames[f := frames[f].(dirty := true)], epc[..], slab[..])
    {
      WordParity(c, slabBase, frames, epc[..], slab[..], f);
      hide FramesTied;
      ghost var words := epc[..];
      var word := epc[f];
      epc[f] := if word % 2 == 0 then word + 1 else word;
      assert epc[..] == words[f := if word % 2 == 0 then word + 1 else word];
    }

    /** deref: the frame and the offset in it that the Aptr's byte is at.  The
        address of the frame is its word without the dirty bit. */
    method Deref(ghost id: nat, a: AptrRef, nonce: int) returns (address: int, ghost f: nat)
      requires Ready() && id in objs && objs[id] == a && Owned(st, me, id)
      requires !InPage(c, a.offset) ==> Faultable(id, a)
      modifies this`free, this`st, this`stale, cache.Repr, epc, slab, llc, llc.buckets, ram, a
      modifies set p | p in llc.items :: llc.items[p]
      ensures Ready() && objs == old(objs) && Reaches(c, old(st), st) && FaultDone(c, old(st), st, id)
      ensures st.aptrs[id].link == Some(f) && a.offset == st.aptrs[id].offset
      ensures address == Word(c, slabBase, f, false) + a.offset
      ensures st.aptrs[id].hint ==> st.aptrs[id].wr && f in st.frames && st.frames[f].dirty
      ensures InPage(c, old(a.offset)) && !old(st.aptrs[id]).hint ==> st == old(st)
      ensures forall p | p in llc.items ::
                fresh(llc.items[p]) || (p in old(llc.items) && llc.items[p] == old(llc.items[p]))
    {
      hide Inv, Memory.Tied, Reaches, FaultDone, Memory.Faultable, Marked;
      Basics();
      ghost var s0 := st;
      SeenPage(id);
      DoneNothing(c, st, me, id);
      if !(0 <= a.offset < c.pageSize) {
        PageFault(id, a, nonce);
      }
      Basics();
      SeenPage(id);
      DerefPlan(c, s0, st, me, id);
      ghost var s1 := st;
      var g := MarkDirty(id, a);
      SeenPage(id);
      MarkedIs(s1, id);
      address := AddressIn(g, a.offset);
      f := g;
    }

    /** APTR2ADDR: the word without its dirty bit, and the offset. */
    method AddressIn(f: nat, offset: int) returns (address: int)
      requires Tied() && f < c.cap
      ensures Tied() && address == Word(c, slabBase, f, false) + offset
    {
      DirtyBit(f);
      CleanWord(c, slabBase, st.frames, epc[..], slab[..], f);
      hide CacheTied, FramesTied, CryptoTied, RamTied, AptrsTied;
      address := epc[f] - epc[f] % 2 + offset;
    }
  
    // ---- the Aptr class ----

    /** The constructor: offset one page up on page -1, so that the first
        dereference faults. */
    method NewRef(x: nat, ghost id: nat) returns (a: AptrRef)
      requires AptrsTied(st.aptrs, objs, None) && id !in st.aptrs && c.pageSize > 0 && AptrsOutside(objs, cache.Repr)
      ensures fresh(a) && AptrsTied(st.aptrs[id := NewAptr(c, me, x)], objs[id := a], None)
      ensures a !in objs.Values && AptrsOutside(objs[id := a], cache.Repr)
    {
      a := new AptrRef;
      a.offset := x % c.pageSize + c.pageSize;
      a.page := -1;
      a.prm := None;
      a.hintWrite := false;
      a.base := x / c.pageSize;
      assert AptrTied(NewAptr(c, me, x), a, false);
      forall i | i in objs ensures AptrTied(st.aptrs[i], objs[i], false) && objs[i] != a {
        assert AptrTied(st.aptrs[i], objs[i], None == Some(i));
      }
    }

    method Construct(x: nat) returns (a: AptrRef, ghost id: nat)
      requires Ready()
      modifies this`st, this`objs
      ensures Ready() && fresh(a) && id !in old(st.aptrs) && id !in old(objs) && objs == old(objs)[id := a]
      ensures st == old(st).(aptrs := old(st.aptrs)[id := NewAptr(c, me, x)]) && Addr(c, st.aptrs[id]) == x
      ensures Reaches(c, old(st), st) && llc.items == old(llc.items)
    {
      hide Inv, Reaches, CacheTied, FramesTied, CryptoTied, RamTied, AptrsTied;
      id := Unused(st.aptrs.Keys);
      SeenNames();
      ConstructPlan(c, st, me, id, x);
      a := NewRef(x, id);
      st := st.(aptrs := st.aptrs[id := NewAptr(c, me, x)]);
      objs := objs[id := a];
    }
  
    /** do_copy: the copy denotes the same address and is not linked. */
    method CopyOf(src: AptrRef, ghost srcId: nat, ghost id: nat) returns (a: AptrRef)
      requires AptrsTied(st.aptrs, objs, None) && id !in st.aptrs && AptrsOutside(objs, cache.Repr)
      requires srcId in objs && objs[srcId] == src && srcId in st.aptrs
      ensures fresh(a) && AptrsTied(st.aptrs[id := CopyAptr(c, me, st.aptrs[srcId])], objs[id := a], None)
      ensures a !in objs.Values && AptrsOutside(objs[id := a], cache.Repr)
    {
      LinkedField(st.aptrs, objs, srcId);
      assert AptrTied(st.aptrs[srcId], src, false);
      a := new AptrRef;
      a.base := src.base;
      a.offset := src.offset + c.pageSize;
      a.page := src.page - 1;
      a.prm := None;
      a.hintWrite := src.hintWrite;
      assert AptrTied(CopyAptr(c, me, st.aptrs[srcId]), a, false);
      forall i | i in objs ensures AptrTied(st.aptrs[i], objs[i], false) && objs[i] != a {
        assert AptrTied(st.aptrs[i], objs[i], None == Some(i));
      }
    }

    method Copy(src: AptrRef, ghost srcId: nat) returns (a: AptrRef, ghost id: nat)
      requires Ready() && srcId in objs && objs[srcId] == src && Owned(st, me, srcId)
      requires !(0 - c.pageSize <= st.aptrs[srcId].offset < 0)
      modifies this`st, this`objs
      ensures Ready() && fresh(a) && id !in old(st.aptrs) && id !in old(objs) && objs == old(objs)[id := a]
      ensures st == old(st).(aptrs := old(st.aptrs)[id := CopyAptr(c, me, old(st.aptrs[srcId]))])
      ensures Addr(c, st.aptrs[id]) == Addr(c, old(st.aptrs[srcId]))
      ensures st.aptrs[id].hint == old(st.aptrs[srcId].hint) && st.aptrs[id].link == None
      ensures Reaches(c, old(st), st) && llc.items == old(llc.items)
    {
      hide Inv, Reaches, CacheTied, FramesTied, CryptoTied, RamTied, AptrsTied;
      id := Unused(st.aptrs.Keys);
      SeenNames();
      CopyPlan(c, st, me, id, srcId);
      a := CopyOf(src, srcId, id);
      st := st.(aptrs := st.aptrs[id := CopyAptr(c, me, st.aptrs[srcId])]);
      objs := objs[id := a];
    }

    method AssignHint(ghost id: nat, a: AptrRef, h: bool)
      requires AptrsTied(st.aptrs, objs, None) && id in objs && objs[id] == a
      modifies a`hintWrite
      ensures id in st.aptrs && AptrsTied(st.aptrs[id := st.aptrs[id].(hint := h)], objs, None)
    {
      a.hintWrite := h;
    }

    method SetHint(ghost id: nat, a: AptrRef, h: bool)
      requires Ready() && id in objs && objs[id] == a && Owned(st, me, id)
      modifies this`st, a`hintWrite
      ensures Ready() && st == Hinted(old(st), id, h) && Reaches(c, old(st), st) && llc.items == old(llc.items)
      ensures st.aptrs[id].hint == h && Addr(c, st.aptrs[id]) == Addr(c, old(st.aptrs[id]))
    {
      hide Inv, Reaches, CacheTied, FramesTied, CryptoTied, RamTied, AptrsTied;
      HintPlan(c, st, me, id, h);
      AssignHint(id, a, h);
      st := Hinted(st, id, h);
    }

    method AddOffset(ghost id: nat, a: AptrRef, d: int)
      requires AptrsTied(st.aptrs, objs, None) && id in objs && objs[id] == a
      modifies a`offset
      ensures id in st.aptrs && AptrsTied(st.aptrs[id := st.aptrs[id].(offset := st.aptrs[id].offset + d)], objs, None)
    {
      a.offset := a.offset + d;
    }

    /** MOVE_APTR. */
    method Move(ghost id: nat, a: AptrRef, d: int)
      requires Ready() && id in objs && objs[id] == a && Owned(st, me, id)
      requires st.aptrs[id].link.None? ==> !InPage(c, st.aptrs[id].offset + d)
      modifies this`st, a`offset
      ensures Ready() && st == Moved(old(st), id, d) && Reaches(c, old(st), st) && llc.items == old(llc.items)
      ensures Addr(c, st.aptrs[id]) == Addr(c, old(st.aptrs[id])) + d && st.aptrs[id].hint == old(st.aptrs[id]).hint
    {
      hide Inv, Reaches, CacheTied, FramesTied, CryptoTied, RamTied, AptrsTied;
      MovePlan(c, st, me, id, d);
      AddOffset(id, a, d);
      st := Moved(st, id, d);
    }

    method DropRef(ghost id: nat, a: AptrRef)
      requires Tied() && stale == None && id in objs && objs[id] == a && id in st.aptrs
      requires st.aptrs[id].pin == st.aptrs[id].link.Some?
      requires st.aptrs[id].pin ==> 0 <= PageOf(st.aptrs[id]) < c.npages
      modifies cache.refCount, a`base, a`prm
      ensures Fixed() && cache.hand == old(cache.hand) && llc.Valid() && llc.items == old(llc.items)
      ensures st.aptrs[id].pin ==> PageOf(st.aptrs[id]) in st.refc
      ensures CacheTied(cache, c.npages, st.cache, st.size, st.queue, Dropped(st, st.aptrs[id]))
      ensures AptrsTied(st.aptrs - {id}, objs - {id}, None)
      ensures FramesTied(c, slabBase, st.frames, epc[..], slab[..]) && CryptoTied(st.crypto, llc.items)
      ensures RamTied(c.npages, st.ram, ram[..])
    {
      hide CacheTied, CountsTied, FramesTied, CryptoTied, RamTied, AptrsTied;
      LinkedField(st.aptrs, objs, id);
      CountedPages(cache, c.npages, st.cache, st.size, st.queue, st.refc);
      if a.prm.Some? {
        DropCount(a.base + a.page, st.refc);
      }
      ForgetRef(id, a);
    }

    method ForgetRef(ghost id: nat, a: AptrRef)
      requires AptrsTied(st.aptrs, objs, None) && id in objs && objs[id] == a
      modifies a`base, a`prm
      ensures AptrsTied(st.aptrs - {id}, objs - {id}, None)
    {
      a.base := -1;
      a.prm := None;
    }

    /** reset, as the destructor calls it. */
    method Reset(ghost id: nat, a: AptrRef)
      requires Ready() && id in objs && objs[id] == a && Owned(st, me, id)
      modifies this`st, this`objs, cache.refCount, a`base, a`prm
      ensures Ready() && objs == old(objs) - {id} && Reaches(c, old(st), st) && llc.items == old(llc.items)
      ensures st.aptrs == old(st.aptrs) - {id} && st.mem == old(st.mem) && st.threads == old(st.threads)
    {
      hide Inv, Reaches, CacheTied, FramesTied, CryptoTied, RamTied, AptrsTied;
      DestroyPlan(c, st, me, id);
      DropRef(id, a);
      st := Destroyed(st, id);
      objs := objs - {id};
    }
  
    // ---- access through a pointer ----

    /** The n bytes at the address that a dereference has given: what the flat
        memory holds from the Aptr's address on. */
    method LoadBytes(ghost id: nat, address: int, n: nat, ghost f: nat, ghost off: nat) returns (bytes: seq<int>)
      requires Ready() && Owned(st, me, id) && st.aptrs[id].link == Some(f)
      requires address == Word(c, slabBase, f, false) + off && off < c.pageSize && off + n <= c.pageSize
      ensures Ready() && |bytes| == n
      ensures Reads(c, st.mem, PageOf(st.aptrs[id]) * c.pageSize + off, bytes)
    {
      hide Inv, Reads, CacheTied, FramesTied, CryptoTied, RamTied, AptrsTied;
      ReadPlan(c, st, me, id, off, n);
      FrameText(c, slabBase, st.frames, epc[..], slab[..], f);
      SplitsAt(c, f, off);
      var frame := (address - slabBase) / c.pageSize;
      var start := (address - slabBase) % c.pageSize;
      bytes := slab[frame][start..start + n];
    }

    /** The bytes are put at the address, through an Aptr marked for writing. */
    method StoreBytes(ghost id: nat, address: int, bytes: seq<int>, ghost f: nat, ghost off: nat)
      requires Ready() && Owned(st, me, id) && st.aptrs[id].wr && st.aptrs[id].link == Some(f)
      requires address == Word(c, slabBase, f, false) + off && off < c.pageSize && off + |bytes| <= c.pageSize
      modifies this`st, slab
      ensures Ready() && st.aptrs == old(st.aptrs) && st.threads == old(st.threads) && Reaches(c, old(st), st)
      ensures Wrote(c, old(st.mem), st.mem, PageOf(st.aptrs[id]) * c.pageSize + off, bytes)
      ensures llc.items == old(llc.items)
    {
      hide Inv, Reaches, Wrote, CacheTied, FramesTied, CryptoTied, RamTied, AptrsTied;
      RunPlan(c, st, me, id, off, bytes);
      FrameInRange(c, st, f);
      FrameText(c, slabBase, st.frames, epc[..], slab[..], f);
      SplitsAt(c, f, off);
      StoredRunText(c, st, id, off, bytes);
      StoredRunWrote(c, st, id, off, bytes);
      var frame := (address - slabBase) / c.pageSize;
      var start := (address - slabBase) % c.pageSize;
      ghost var was := slab[..];
      ghost var text := slab[frame][..start] + bytes + slab[frame][start + |bytes|..];
      RefillTied(c, slabBase, st.frames, epc[..], slab[..], f, text);
      slab[frame] := slab[frame][..start] + bytes + slab[frame][start + |bytes|..];
      assert slab[..] == was[f := text];
      st := StoredRun(c, st, id, off, bytes);
    }
  }

  lemma {:induction false} Unused(ids: set<nat>) returns (id: nat)
    ensures id !in ids
  {
    id := UnusedFrom(ids, 0);
  }

  lemma {:induction false} UnusedFrom(ids: set<nat>, k: nat) returns (id: nat)
    ensures id !in ids
    decreases |set i | i in ids && i >= k|
  {
    if k !in ids {
      id := k;
    } else {
      var now := set i | i in ids && i >= k;
      var next := set i | i in ids && i >= k + 1;
      assert now == next + {k};
      id := UnusedFrom(ids, k + 1);
    }
  }

  /** Whether a pointer for writing is out is not in the program's data. */
  /** What an eviction does to the cache, the free frames and the flat memory. */
  lemma EvictedIs(c: Config, s: State, t: nat, q: int, f: nat, nonce: int)
    requires t in s.threads && f in s.frames && c.nbuckets > 0
    ensures var r := Evicted(c, s, t, q, f, nonce);
            r.cache == s.cache - {q} && r.free == s.free + [f] && r.mem == s.mem
  {
  }

  /** Only an Aptr for writing marks its frame. */
  lemma MarkedIs(s: State, a: nat)
    requires a in s.aptrs && s.aptrs[a].link.Some? && s.aptrs[a].link.value in s.frames
    ensures var f, s' := s.aptrs[a].link.value, Marked(s, a);
            if s.aptrs[a].hint then f in s'.frames && s'.frames[f].dirty else s' == s
  {
  }

  lemma MarkTied(aptrs: map<nat, Aptr>, objs: map<nat, AptrRef>, id: nat)
    requires AptrsTied(aptrs, objs, None) && id in aptrs
    ensures AptrsTied(aptrs[id := aptrs[id].(wr := true)], objs, None)
  {
    var next := aptrs[id := aptrs[id].(wr := true)];
    forall i | i in objs ensures AptrTied(next[i], objs[i], false) {
      assert AptrTied(aptrs[i], objs[i], false);
    }
  }

  lemma LinkedField(aptrs: map<nat, Aptr>, objs: map<nat, AptrRef>, id: nat)
    requires AptrsTied(aptrs, objs, None) && id in objs
    ensures id in aptrs && objs[id].prm == aptrs[id].link && objs[id].base + objs[id].page == PageOf(aptrs[id])
    ensures objs[id].offset == aptrs[id].offset && objs[id].hintWrite == aptrs[id].hint
  {
    assert AptrTied(aptrs[id], objs[id], false);
  }

  lemma CountedPages(cache: PageCache, npages: nat, cached: map<int, nat>, size: int, queue: seq<int>,
    refc: map<int, int>)
    requires CacheTied(cache, npages, cached, size, queue, refc)
    ensures forall p | 0 <= p < npages :: p in refc
  {
  }

  /** Whether an Aptr pins its page is not in the program's data. */
  lemma PinTied(aptrs: map<nat, Aptr>, objs: map<nat, AptrRef>, stale: Option<nat>, id: nat)
    requires AptrsTied(aptrs, objs, stale) && id in aptrs
    ensures AptrsTied(aptrs[id := aptrs[id].(pin := true)], objs, stale)
  {
    var next := aptrs[id := aptrs[id].(pin := true)];
    forall i | i in objs ensures AptrTied(next[i], objs[i], stale == Some(i)) {
      assert AptrTied(aptrs[i], objs[i], stale == Some(i));
    }
  }

  lemma StoredItem(llc: CryptoCache, crypto: map<int, Meta>, npages: nat, stored: map<int, seq<int>>,
    ram: seq<seq<int>>, p: int)
    requires CryptoTied(crypto, llc.items) && RamTied(npages, stored, ram)
    ensures p in llc.items <==> p in crypto
    ensures p in llc.items ==> crypto[p] == Meta(llc.items[p].nonce, llc.items[p].tag)
    ensures p in stored ==> 0 <= p < |ram| && ram[p] == stored[p]
  {
  }

  lemma RefillTied(c: Config, base: int, frames: map<nat, FrameData>, words: seq<int>, slab: seq<seq<int>>, f: nat,
    text: seq<int>)
    requires FramesTied(c, base, frames, words, slab) && f < c.cap
    ensures f in frames && f < |slab|
    ensures FramesTied(c, base, frames[f := frames[f].(text := text)], words, slab[f := text])
  {
  }

  lemma LoadFields(c: Config, s: State, t: nat, f: nat)
    requires t in s.threads && s.threads[t].pc == AtLoad(f) && f in s.frames
    requires s.threads[t].p in s.crypto ==> Sealed(c, s, s.threads[t].p)
    ensures var r := Load(c, s, t, f);
            r == s.(threads := s.threads[t := s.threads[t].(pc := AtAdd(f))], frames := r.frames)
    ensures var p := s.threads[t].p;
            p in s.crypto ==> p in s.ram && c.dec(s.ram[p], s.crypto[p].nonce, s.crypto[p].tag).Some?
    ensures var p := s.threads[t].p;
            Load(c, s, t, f).frames == if p !in s.crypto then s.frames
              else s.frames[f := s.frames[f].(text := c.dec(s.ram[p], s.crypto[p].nonce, s.crypto[p].tag).value)]
  {
  }

  lemma SealFields(c: Config, s: State, t: nat, q: int, f: nat, nonce: int)
    requires t in s.threads && f in s.frames && s.frames[f].dirty
    ensures var s1 := ClearDirty(s, t, q, f, nonce); t in s1.threads && f in s1.frames && q in s1.crypto
    ensures var s' := Seal(c, ClearDirty(s, t, q, f, nonce), t, q, f);
            var e := c.enc(s.frames[f].text, nonce);
            && s' == s.(threads := s'.threads, frames := s.frames[f := s.frames[f].(dirty := false)],
                        crypto := s.crypto[q := Meta(nonce, e.1)], ram := s.ram[q := e.0])
            && t in s'.threads
  {
    assert s.crypto[q := Meta(nonce, if q in s.crypto then s.crypto[q].tag else 0)]
                   [q := Meta(nonce, c.enc(s.frames[f].text, nonce).1)]
        == s.crypto[q := Meta(nonce, c.enc(s.frames[f].text, nonce).1)];
  }

  lemma ItemsApart(llc: CryptoCache)
    requires llc.Valid()
    ensures forall p, q | p in llc.items && q in llc.items && p != q :: llc.items[p] != llc.items[q]
    ensures forall p | p in llc.items :: llc.items[p].page == p
  {
  }

  /** The low bit of a frame word is the dirty bit, and clearing it gives the
      frame's address back. */
  lemma WordParity(c: Config, base: int, frames: map<nat, FrameData>, words: seq<int>, slab: seq<seq<int>>, f: nat)
    requires FramesTied(c, base, frames, words, slab) && f < c.cap && c.pageSize % 2 == 0 && base % 2 == 0
    ensures f in frames && f < |words| && (words[f] % 2 == 1 <==> frames[f].dirty)
    ensures FramesTied(c, base, frames[f := frames[f].(dirty := false)], words[f := words[f] - words[f] % 2], slab)
    ensures FramesTied(c, base, frames[f := frames[f].(dirty := true)],
                       words[f := if words[f] % 2 == 0 then words[f] + 1 else words[f]], slab)
  {
    EvenProduct(f, c.pageSize);
  }

  lemma FrameText(c: Config, base: int, frames: map<nat, FrameData>, words: seq<int>, slab: seq<seq<int>>, f: nat)
    requires FramesTied(c, base, frames, words, slab) && f < c.cap
    ensures f in frames && f < |slab| && frames[f].text == slab[f]
  {
  }

  lemma CleanWord(c: Config, base: int, frames: map<nat, FrameData>, words: seq<int>, slab: seq<seq<int>>, f: nat)
    requires FramesTied(c, base, frames, words, slab) && f < c.cap && c.pageSize % 2 == 0 && base % 2 == 0
    ensures f < |words| && words[f] - words[f] % 2 == Word(c, base, f, false)
  {
    EvenProduct(f, c.pageSize);
  }

  lemma EvenProduct(a: int, b: int)
    requires b % 2 == 0
    ensures (a * b) % 2 == 0
  {
    assert b == 2 * (b / 2);
    assert a * b == 2 * (a * (b / 2));
  }

  lemma RamSize(c: Config, base: int, frames: map<nat, FrameData>, words: seq<int>, slab: seq<seq<int>>,
                stored: map<int, seq<int>>, ram: seq<seq<int>>, q: nat, t: seq<int>)
    requires FramesTied(c, base, frames, words, slab) && RamTied(c.npages, stored, ram) && q < c.npages
    ensures |ram| == c.npages && |slab| == c.cap == |words|
    ensures RamTied(c.npages, stored[q := t], ram[q := t])
  {
  }

  lemma VictimCounted(npages: nat, refc: map<int, int>, counts: seq<int>, q: int)
    requires CountsTied(npages, refc, counts) && 0 <= q < |counts|
    ensures q in refc && refc[q] == counts[q]
  {
  }

  /** initialize_aptr: all frames are free and clean.  The table of metadata has
      its own number of buckets. */
  method InitializeAptr(c: Config, me: nat, base: int, llcBuckets: nat) returns (m: Memory)
    requires Fit(c) && c.pageSize % 2 == 0 && base % 2 == 0 && me in c.threads && llcBuckets > 0
    ensures fresh(m) && fresh(m.cache.Repr) && fresh(m.llc) && fresh(m.llc.buckets)
    ensures fresh(m.epc) && fresh(m.slab) && fresh(m.ram)
    ensures m.c == c && m.me == me && m.Ready() && Init(c, m.st) && m.objs == map[]
  {
    assert c.nbuckets > 0 && c.cap > 0;
    hide Fit, Init, FramesBuilt, Memory.Tied;
    var l1 := new PageCache(c.nbuckets, c.npages, c.cap);
    var l2 := new CryptoCache(llcBuckets);
    var table, frames, list := BuildFrames(c, base);
    var store := new seq<int>[c.npages];
    m := new Memory(c, me, base, l1, l2, table, frames, store, list);
    m.StartReady();
  }
}
