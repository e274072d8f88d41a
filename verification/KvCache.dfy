/** kernel/ai/kv.c: attention-cache pages, shared by content and reference counted. */
module KvCache {
  import opened Common
  import opened Bytes
  import opened DigestOrder
  import opened KvPages

  datatype Status = Ok | Invalid | NoSpace | NoMemory

  datatype State = State(pages: map<nat, Page>, lru: seq<nat>, buckets: seq<seq<nat>>, caches: seq<Option<Cache>>)

  /** The layer and position each page was appended at, and every string hashed so far. */
  datatype History = History(at: map<nat, (nat, nat)>, hashed: set<seq<byte>>)

  ghost predicate CacheOk(s: State, c: Cache) {
    && c.npages <= |c.pages| && c.tokens < U64 && c.layers > 0
    && forall j :: 0 <= j < c.npages ==> c.pages[j].Some? && c.pages[j].value in s.pages
  }

  /** At most one live page has a given digest and layer. */
  ghost predicate OneEach(pages: map<nat, Page>) {
    forall p, q ::
      p in pages && q in pages && pages[p].digest == pages[q].digest && pages[p].layer == pages[q].layer ==> p == q
  }

  lemma SameEach(pages: map<nat, Page>, pages': map<nat, Page>)
    requires OneEach(pages)
    requires forall p ::
               p in pages' ==> p in pages && pages'[p].digest == pages[p].digest && pages'[p].layer == pages[p].layer
    ensures OneEach(pages')
  {
  }

  ghost predicate ListsOk(s: State) {
    && OneEach(s.pages)
    && Distinct(s.lru) && (forall p :: p in s.lru <==> p in s.pages)
    && |s.buckets| == BUCKETS
    && (forall b, p :: 0 <= b < BUCKETS ==> (p in s.buckets[b] <==> p in s.pages && BucketOf(s.pages[p].digest) == b))
  }

  ghost predicate CachesOk(s: State) {
    forall i :: 0 <= i < |s.caches| && s.caches[i].Some? ==> CacheOk(s, s.caches[i].value)
  }

  /** A page's count is the number of slots pointing at it. */
  ghost predicate RefLaw(s: State) {
    forall p :: p in s.pages ==> s.pages[p].refcount == Refs(s.caches, p)
  }

  /** What a sequence reads back from one slot. */
  ghost function Content(pages: map<nat, Page>, q: Option<nat>): (nat, seq<byte>, seq<byte>) {
    if q.Some? && q.value in pages then (pages[q.value].layer, pages[q.value].k, pages[q.value].v) else (0, [], [])
  }

  ghost function Contents(pages: map<nat, Page>, used: seq<Option<nat>>): seq<(nat, seq<byte>, seq<byte>)> {
    seq(|used|, i requires 0 <= i < |used| => Content(pages, used[i]))
  }

  /** The private page list of sequence `c`, as it reads back through shared pages. */
  ghost function View(s: State, c: nat): seq<(nat, seq<byte>, seq<byte>)> {
    if c < |s.caches| then Contents(s.pages, Used(s.caches[c])) else []
  }

  /** Each page's digest is that of the layer, position and contents it was made from. */
  ghost predicate Named(h: seq<byte> -> Digest, pages: map<nat, Page>, born: History, next: nat) {
    forall p :: p in pages ==> PageOk(h, pages[p], p, born, next)
  }

  ghost predicate PageOk(h: seq<byte> -> Digest, page: Page, p: nat, born: History, next: nat) {
    && p < next && p in born.at && born.at[p].0 < U32 && born.at[p].1 < U64
    && |page.k| == |page.v| && page.layer == born.at[p].0 % U16
    && page.digest == h(Preimage(born.at[p].0, born.at[p].1, page.k, page.v))
    && Preimage(born.at[p].0, born.at[p].1, page.k, page.v) in born.hashed
  }

  lemma SameViews(s: State, s': State, c: nat)
    requires c < |s.caches| && c < |s'.caches| && Used(s'.caches[c]) == Used(s.caches[c])
    requires s.caches[c].Some? ==> CacheOk(s, s.caches[c].value)
    requires forall p ::
               p in s.pages && (exists j :: 0 <= j < |Used(s.caches[c])| && Used(s.caches[c])[j] == Some(p)) ==>
               p in s'.pages && Content(s'.pages, Some(p)) == Content(s.pages, Some(p))
    ensures View(s', c) == View(s, c)
  {
    var used := Used(s.caches[c]);
    forall j | 0 <= j < |used|
      ensures Content(s'.pages, used[j]) == Content(s.pages, used[j])
    {
      assert used[j].Some? && used[j].value in s.pages;
    }
  }

  class Kv {
    const hash: seq<byte> -> Digest
    var pages: map<nat, Page>
    var lru: seq<nat>                 // head is evicted first
    var buckets: seq<seq<nat>>
    var caches: seq<Option<Cache>>    // None once destroyed
    var bytesLive: nat
    var pagesLive: nat
    var budget: nat
    var nextId: nat
    ghost var born: History

    ghost function S(): State
      reads this
    {
      State(pages, lru, buckets, caches)
    }

    ghost predicate Valid()
      reads this
    {
      && ListsOk(S()) && CachesOk(S()) && Named(hash, pages, born, nextId)
      && bytesLive == Total(pages, lru) && pagesLive == |lru|
    }

    constructor (hash: seq<byte> -> Digest, budget: nat)
      ensures Valid() && RefLaw(S()) && caches == [] && pages == map[] && this.hash == hash && this.budget == budget
    {
      this.hash := hash;
      this.budget := budget;
      pages, lru, buckets, caches := map[], [], seq(BUCKETS, _ => []), [];
      bytesLive, pagesLive, nextId := 0, 0, 1;
      born := History(map[], {});
    }

    /** A new sequence with an empty page array. */
    method Create(layers: nat, heads: nat, dim: nat, elem: nat, maxTokens: nat, memory: bool) returns (c: Option<nat>)
      requires Valid()
      modifies this`caches
      ensures Valid() && (old(RefLaw(S())) ==> RefLaw(S()))
      ensures c.None? <==> layers == 0 || heads == 0 || dim == 0 || !memory
      ensures c.None? ==> caches == old(caches)
      ensures c.Some? ==> c.value == |old(caches)| && View(S(), c.value) == []
      ensures c.Some? ==> caches == old(caches) + [Some(Blank(layers, heads, dim, elem, maxTokens))]
      ensures c.Some? && maxTokens < U32 ==>
                var slots, most := |caches[c.value].value.pages|, if maxTokens == 0 then 2048 else maxTokens;
                Covering(slots, most, layers) <==> Narrow(most, layers)
      ensures forall i :: 0 <= i < |old(caches)| ==> View(S(), i) == old(View(S(), i))
    {
      if layers == 0 || heads == 0 || dim == 0 || !memory {
        return None;
      }
      hide ListsOk, RefLaw, Named;
      var blank := Blank(layers, heads, dim, elem, maxTokens);
      c := Some(|caches|);
      if maxTokens < U32 {
        PagesCover(if maxTokens == 0 then 2048 else maxTokens, layers);
      }
      hide Covering, Narrow, PagesFor;
      CreateCaches(S(), blank);
      caches := caches + [Some(blank)];
    }

    /** The first page in the bucket with this digest and (16-bit) layer. */
    method PageLookup(digest: Digest, layer: nat) returns (r: Option<nat>)
      requires Valid()
      ensures r.Some? ==> r.value in pages && pages[r.value].digest == digest && pages[r.value].layer == layer
      ensures r.None? ==> forall p :: p in pages ==> !(pages[p].digest == digest && pages[p].layer == layer)
    {
      hide CachesOk, Named;
      BucketFacts(S(), digest);
      hide ListsOk;
      var list := buckets[BucketOf(digest)];
      for i := 0 to |list|
        invariant forall j :: 0 <= j < i ==> !(pages[list[j]].digest == digest && pages[list[j]].layer == layer)
      {
        var p := list[i];
        if pages[p].layer == layer && pages[p].digest == digest {
          return Some(p);
        }
      }
      r := None;
    }

    /** Free one unreferenced page. */
    method FreePage(p: nat)
      requires Valid() && p in pages && pages[p].refcount == 0 && RefLaw(S())
      modifies this`pages, this`lru, this`buckets, this`bytesLive, this`pagesLive
      ensures Valid() && RefLaw(S())
      ensures S() == FreeState(old(S()), p)
      ensures bytesLive == old(bytesLive) - old(pages[p].bytes)
    {
      hide ListsOk, CachesOk, RefLaw, Named, Without, Total;
      ghost var s := S();
      FreeTotals(s, p);
      var b := BucketOf(pages[p].digest);
      bytesLive := bytesLive - pages[p].bytes;
      pagesLive := pagesLive - 1;
      lru := Without(lru, p);
      buckets := buckets[b := Without(buckets[b], p)];
      pages := pages - {p};
      FreeLists(s, p);
      FreeCaches(s, p);
      NamedLess(hash, s.pages, p, born, nextId);
    }

    /** Free unreferenced pages, least recently used first, until `want` more bytes
        fit the budget or no unreferenced page is left. */
    method EvictLocked(want: nat)
      requires Valid() && RefLaw(S())
      modifies this`pages, this`lru, this`buckets, this`bytesLive, this`pagesLive
      ensures Valid() && RefLaw(S())
      ensures exists i ::
                0 <= i <= |old(lru)| && EvictedTo(old(S()), S(), i) && (bytesLive + want <= budget || i == |old(lru)|)
      ensures bytesLive + want <= budget || (forall p :: p in pages ==> pages[p].refcount > 0)
      ensures forall p :: p in pages ==> p in old(pages) && pages[p] == old(pages)[p]
      ensures forall c: nat :: View(S(), c) == old(View(S(), c))
      ensures S() == old(S()) || LastWasNeeded(old(pages), pages, bytesLive + want, budget)
    {
      hide ListsOk, CachesOk, RefLaw, Named, Total, FreeState, EvictedTo, LastWasNeeded;
      ghost var s := S();
      var list := lru;
      EvictStart(s);
      var i := 0;
      while i < |list| && bytesLive + want > budget
        invariant Valid() && RefLaw(S()) && 0 <= i <= |list| && EvictedTo(s, S(), i)
        invariant S() == s || LastWasNeeded(s.pages, pages, bytesLive + want, budget)
      {
        var p := list[i];
        ghost var t := S();
        EvictFacts(s, t, i);
        if pages[p].refcount > 0 {
          EvictSkip(s, t, i);
        } else {
          FreePage(p);
          EvictStep(s, t, i);
          Needed(s, t, S(), p, i, bytesLive + want, budget);
        }
        i := i + 1;
      }
      EvictDone(s, S(), i);
    }

    /** Give back the references of slots `from` to `upto` of an array. */
    method Release(slots: seq<Option<nat>>, from: nat, upto: nat)
      requires from <= upto <= |slots|
      requires forall j :: from <= j < upto ==> slots[j].Some? && slots[j].value in pages
      requires forall p :: p in pages ==> Count(slots[from..upto], p) <= pages[p].refcount
      modifies this`pages
      ensures Lowered(old(pages), pages, slots[from..upto]) && pages.Keys == old(pages).Keys
    {
      hide Count, Lowered;
      assert slots[from..from] == [];
      LoweredStart(pages);
      for i := from to upto
        invariant Lowered(old(pages), pages, slots[from..i]) && pages.Keys == old(pages).Keys
      {
        var p := slots[i].value;
        CountPart(slots, from, i, upto, p);
        LowerOne(old(pages), pages, slots[from..i], p);
        Unref(p);
      }
    }

    /** Drop one reference, if there is one. */
    method Unref(p: nat)
      requires p in pages
      modifies this`pages
      ensures var page := old(pages)[p];
              pages == if page.refcount > 0 then old(pages)[p := page.(refcount := page.refcount - 1)] else old(pages)
    {
      if pages[p].refcount > 0 {
        pages := pages[p := pages[p].(refcount := pages[p].refcount - 1)];
      }
    }

    /** Destroying a sequence gives back all its references and frees nothing. */
    method Destroy(c: nat)
      requires Valid() && RefLaw(S()) && c < |caches| && caches[c].Some?
      modifies this`pages, this`caches
      ensures Valid() && RefLaw(S())
      ensures caches == old(caches)[c := None] && pages.Keys == old(pages).Keys
      ensures forall d: nat :: d != c ==> View(S(), d) == old(View(S(), d))
    {
      hide ListsOk, CachesOk, RefLaw, Named, Total, Lowered, Count, View, Used;
      ghost var s := S();
      var k := caches[c].value;
      UsedFits(s, c, 0, k.npages);
      UsedParts(k, 0);
      Release(k.pages, 0, k.npages);
      ghost var t := S();
      caches := caches[c := None];
      SlotsGone(s, t, c, None, k.pages[..0], k.pages[0..k.npages]);
      LoweredKeeps(hash, s, S(), k.pages[0..k.npages], born, nextId);
      LoweredViews(s, t, S(), c, k.pages[0..k.npages]);
    }

    /** Trimming keeps the first pages of the sequence and gives back the rest. */
    method Trim(c: nat, keepTokens: nat)
      requires Valid() && RefLaw(S()) && c < |caches| && caches[c].Some? && keepTokens < U32
      modifies this`pages, this`caches
      ensures Valid() && RefLaw(S()) && pages.Keys == old(pages).Keys
      ensures var k := old(caches[c].value);
              var keep := PagesFor(keepTokens, k.layers);
              && k.npages <= |k.pages|
              && if keep >= k.npages then S() == old(S())
                 else && caches == old(caches)[c := Some(Trimmed(k, keep, keepTokens))]
                      && View(S(), c) == old(View(S(), c))[..keep]
      ensures var k := old(caches[c].value);
              && caches[c].Some? && k.layers > 0
              && (Narrow(keepTokens, k.layers) ==> Cut(caches[c].value.npages, k.npages, keepTokens, k.layers))
              && (keepTokens + 15 >= U32 ==> caches[c].value.npages == 0)
      ensures forall d: nat :: d != c ==> View(S(), d) == old(View(S(), d))
    {
      hide ListsOk, CachesOk, RefLaw, Named, Total, Lowered, Count, View, Used;
      ghost var s := S();
      var k := caches[c].value;
      var keep := PagesFor(keepTokens, k.layers);
      TokensFit(s, c);
      PagesCover(keepTokens, k.layers);
      CutTo(keep, k.npages, keepTokens, k.layers);
      hide PagesFor, Narrow, Covering, Cut;
      if keep >= k.npages {
        return;
      }
      UsedFits(s, c, keep, k.npages);
      UsedParts(k, keep);
      Release(k.pages, keep, k.npages);
      ghost var t := S();
      var slots := ClearSlots(k.pages, keep, k.npages);
      var k' := k.(pages := slots, npages := keep, tokens := keepTokens);
      assert k' == Trimmed(k, keep, keepTokens);
      caches := caches[c := Some(k')];
      UsedParts(k', keep);
      assert k'.pages[..keep] == k.pages[..keep];
      SlotsGone(s, t, c, Some(k'), k.pages[..keep], k.pages[keep..k.npages]);
      LoweredKeeps(hash, s, S(), k.pages[keep..k.npages], born, nextId);
      LoweredViews(s, t, S(), c, k.pages[keep..k.npages]);
    }

    method ClearSlots(slots: seq<Option<nat>>, from: nat, upto: nat) returns (r: seq<Option<nat>>)
      requires from <= upto <= |slots|
      ensures r == slots[..from] + seq(upto - from, _ => None) + slots[upto..]
    {
      r := slots;
      for i := from to upto
        invariant |r| == |slots|
        invariant forall j :: 0 <= j < |slots| ==> r[j] == if from <= j < i then None else slots[j]
      {
        r := r[i := None];
      }
    }

    /** Forking shares every page up to the branch point. The reference counts stay
        exact if and only if the destination held no page before: its old slots are
        overwritten without being given back. */
    method Fork(dst: nat, src: nat, uptoToken: nat) returns (r: Status)
      requires Valid() && RefLaw(S()) && dst < |caches| && caches[dst].Some? && src < |caches| && caches[src].Some?
      requires uptoToken < U32
      modifies this`pages, this`caches
      ensures Valid() && pages.Keys == old(pages).Keys
      ensures var want := ForkPages(uptoToken, old(caches[src].value));
              && (r == Ok || r == NoSpace)
              && (r == NoSpace <==> want > |old(caches[dst].value.pages)|)
              && (r == NoSpace ==> S() == old(S()))
              && want <= |old(caches[src].value.pages)|
              && (r == Ok ==> caches == old(caches)[dst := Some(Forked(old(caches[dst].value), old(caches[src].value),
                                                                       want, uptoToken))])
              && (r == Ok ==> View(S(), dst) == old(View(S(), src))[..want])
              && (r == Ok ==> (RefLaw(S()) <==> old(caches[dst].value.npages) == 0))
      ensures var from := old(caches[src].value);
              && from.layers > 0
              && (r == Ok && Narrow(uptoToken, from.layers) ==>
                    caches[dst].Some? && Cut(caches[dst].value.npages, from.npages, uptoToken, from.layers))
      ensures forall d: nat :: d != dst ==> View(S(), d) == old(View(S(), d))
    {
      hide ListsOk, RefLaw, Named, Total, Raised;
      ghost var s := S();
      var from, to := caches[src].value, caches[dst].value;
      assert CacheOk(s, from);
      var want := ForkPages(uptoToken, from);
      PagesCover(uptoToken, from.layers);
      CutTo(PagesFor(uptoToken, from.layers), from.npages, uptoToken, from.layers);
      hide PagesFor, Narrow, Covering, Cut;
      if want > |to.pages| {
        return NoSpace;
      }
      var slots := Share(from.pages, want, to.pages);
      ghost var shared := from.pages[..want];
      var k := to.(pages := slots, npages := want, tokens := uptoToken);
      caches := caches[dst := Some(k)];
      assert slots[..want] == shared;
      ForkLaw(s, S(), dst, shared);
      ForkLists(hash, s, S(), shared, born, nextId);
      ForkViews(s, S(), dst, src, want);
      r := Ok;
    }

    /** Take a reference for each shared slot and copy it over. */
    method Share(from: seq<Option<nat>>, want: nat, to: seq<Option<nat>>) returns (slots: seq<Option<nat>>)
      requires want <= |from| && want <= |to|
      requires forall j :: 0 <= j < want ==> from[j].Some? && from[j].value in pages
      modifies this`pages
      ensures Raised(old(pages), pages, from[..want]) && pages.Keys == old(pages).Keys
      ensures slots == from[..want] + to[want..]
    {
      hide Count, Raised;
      slots := to;
      RaisedStart(pages);
      assert from[..0] == [];
      for i := 0 to want
        invariant Raised(old(pages), pages, from[..i]) && pages.Keys == old(pages).Keys
        invariant |slots| == |to| && forall j :: 0 <= j < |to| ==> slots[j] == if j < i then from[j] else to[j]
      {
        var p := from[i].value;
        assert from[..i + 1] == from[..i] + [from[i]];
        RaiseOne(old(pages), pages, from[..i], p);
        pages := pages[p := pages[p].(refcount := pages[p].refcount + 1)];
        slots := slots[i := Some(p)];
      }
    }

    /** Under memory pressure: evict against a temporarily lowered budget. */
    method PressureEvict(want: nat)
      requires Valid() && RefLaw(S())
      modifies this`pages, this`lru, this`buckets, this`bytesLive, this`pagesLive, this`budget
      ensures Valid() && RefLaw(S()) && budget == old(budget) && caches == old(caches)
      ensures var most := if budget > want then budget - want else budget;
              bytesLive <= most || (forall p :: p in pages ==> pages[p].refcount > 0)
      ensures forall c: nat :: View(S(), c) == old(View(S(), c))
    {
      hide ListsOk, CachesOk, RefLaw, Named, Total;
      var oldBudget := budget;
      if budget > want {
        budget := budget - want;
      }
      EvictLocked(0);
      budget := oldBudget;
    }

    /** Append one page of keys and values, adopting a live page with the same digest
        instead of storing a second copy. */
    method Append(c: nat, layer: nat, k: seq<byte>, v: seq<byte>, ntok: nat, memory: bool) returns (r: Status)
      requires Valid() && RefLaw(S()) && Live(S(), c)
      requires layer < U32 && ntok < U32
      requires |k| == |v| == PageBytes(caches[c].value)
      modifies this
      ensures Valid() && RefLaw(S()) && budget == old(budget)
      ensures born.hashed == old(born.hashed) + (if r == Invalid || r == NoSpace then {}
                                                 else {old(AppendPre(S(), c, layer, k, v))})
      ensures var due := old(AppendStatus(S(), c, layer, ntok));
              r == due || (r == NoMemory && !memory && due == Ok)
      ensures r == Invalid || r == NoSpace ==> S() == old(S())
      ensures if r == Ok then SlotFilled(old(S()), S(), c, ntok) else SameSequences(old(S()), S())
      ensures forall d: nat :: d != c ==> View(S(), d) == old(View(S(), d))
      ensures r == Ok && old(NoClash(hash, pages, born, AppendPre(S(), c, layer, k, v))) ==>
                View(S(), c) == old(View(S(), c)) + [(layer % U16, k, v)]
      ensures r == Ok ==>
                && LastSlot(S(), c).Some? && LastSlot(S(), c).value in pages
                && pages[LastSlot(S(), c).value].digest == hash(old(AppendPre(S(), c, layer, k, v)))
                && pages[LastSlot(S(), c).value].layer == layer % U16
      ensures r == Ok && nextId > old(nextId) ==>
                bytesLive <= budget || forall p :: p in pages ==> pages[p].refcount > 0
      ensures r == Ok && nextId > old(nextId) ==>
                var k := old(caches[c].value);
                old(nextId) in pages && pages[old(nextId)].bytes == 2 * (16 * k.heads * k.dim * k.elem)
      ensures r == Ok ==> (pages[LastSlot(S(), c).value].ntokens == ntok <==>
                           old(CountsAgree(pages, hash(AppendPre(S(), c, layer, k, v)), layer % U16, ntok)))
    {
      hide ListsOk, CachesOk, RefLaw, Named, Total, Preimage, View, NoClash, AppendPre, SlotFilled, CountsAgree;
      hide EvictedTo, LastWasNeeded;
      if layer >= caches[c].value.layers || ntok == 0 || ntok > PAGE_TOKENS {
        return Invalid;
      }
      if caches[c].value.npages >= |caches[c].value.pages| {
        return NoSpace;
      }
      ghost var s := S();
      PreFacts(s, c, layer, k, v);
      TokensFit(s, c);
      var pre := Preimage(layer, caches[c].value.tokens, k, v);
      var digest := hash(pre);
      AdoptView(hash, s, born, nextId, layer, caches[c].value.tokens, k, v);
      HashedMore(hash, pages, born, nextId, pre);
      born := born.(hashed := born.hashed + {pre});
      var found := PageLookup(digest, layer % U16);
      if found.Some? {
        CountOf(s, found.value, ntok);
        Adopt(c, found.value, ntok);
        return Ok;
      }
      CountNone(pages, digest, layer % U16, ntok);
      EvictLocked(2 * PageBytes(caches[c].value));
      if !memory {
        return NoMemory;
      }
      ghost var t := S();
      StoreNew(c, digest, layer, k, v, ntok);
      FilledAfter(s, t, S(), c, ntok);
      r := Ok;
    }

    /** Take one more reference to a live page and put it in the next slot. */
    method Adopt(c: nat, p: nat, ntok: nat)
      requires Valid() && RefLaw(S()) && p in pages
      requires Live(S(), c) && caches[c].value.npages < |caches[c].value.pages|
      modifies this`pages, this`lru, this`caches
      ensures Valid() && RefLaw(S()) && SlotFilled(old(S()), S(), c, ntok)
      ensures LastSlot(S(), c) == Some(p) && p in pages && pages[p] == old(pages[p]).(refcount := pages[p].refcount)
      ensures View(S(), c) == old(View(S(), c)) + [old(Content(pages, Some(p)))]
      ensures forall d: nat :: d != c ==> View(S(), d) == old(View(S(), d))
    {
      hide ListsOk, CachesOk, RefLaw, Named, Total, View, SlotFilled;
      ghost var s := S();
      Bump(p);
      ghost var t := S();
      AddSlot(c, p, ntok);
      ListsIgnore(t, S());
      AddedSlot(s, S(), c, p, ntok);
    }

    /** One more reference, and most recently used. */
    method Bump(p: nat)
      requires Valid() && p in pages
      modifies this`pages, this`lru
      ensures ListsOk(S()) && Named(hash, pages, born, nextId)
      ensures bytesLive == Total(pages, lru) && pagesLive == |lru|
      ensures pages == old(pages)[p := old(pages)[p].(refcount := old(pages)[p].refcount + 1)]
    {
      hide ListsOk, CachesOk, Named, Total, Without;
      ghost var s := S();
      pages := pages[p := pages[p].(refcount := pages[p].refcount + 1)];
      lru := Without(lru, p) + [p];
      AdoptLists(s, p, pages, lru);
      AdoptTotal(s, p, pages, lru);
      AdoptNamed(hash, s.pages, p, pages, born, nextId);
    }

    /** Store a page nobody holds yet and put it in the next slot. */
    method StoreNew(c: nat, digest: Digest, layer: nat, k: seq<byte>, v: seq<byte>, ntok: nat)
      requires Valid() && RefLaw(S())
      requires Live(S(), c) && caches[c].value.npages < |caches[c].value.pages|
      requires layer < U32 && caches[c].value.tokens < U64 && |k| == |v| == PageBytes(caches[c].value)
      requires var pre := Preimage(layer, caches[c].value.tokens, k, v); digest == hash(pre) && pre in born.hashed
      requires forall p :: p in pages ==> !(pages[p].digest == digest && pages[p].layer == layer % U16)
      modifies this
      ensures budget == old(budget) && born.hashed == old(born.hashed)
      ensures Valid() && RefLaw(S()) && SlotFilled(old(S()), S(), c, ntok)
      ensures LastSlot(S(), c) == Some(old(nextId)) && old(nextId) in pages
      ensures var p := pages[old(nextId)]; p.digest == digest && p.layer == layer % U16 && p.ntokens == ntok
      ensures var p := pages[old(nextId)]; p.bytes == 2 * PageBytes(old(caches[c].value)) && p.refcount == 1
      ensures bytesLive == old(bytesLive) + 2 * PageBytes(old(caches[c].value))
      ensures forall p :: p in pages ==> p == old(nextId) || (p in old(pages) && pages[p] == old(pages)[p])
      ensures View(S(), c) == old(View(S(), c)) + [(layer % U16, k, v)]
      ensures forall d: nat :: d != c ==> View(S(), d) == old(View(S(), d))
    {
      hide ListsOk, CachesOk, RefLaw, Named, Total, View, Preimage, SlotFilled;
      ghost var s := S();
      var page := Page(digest, layer % U16, ntok, 1, 2 * PageBytes(caches[c].value), k, v);
      var p := StorePage(page, layer, caches[c].value.tokens);
      ghost var t := S();
      AddSlot(c, p, ntok);
      ListsIgnore(t, S());
      AddedSlot(s, S(), c, p, ntok);
    }

    /** A page of its own, at the head of its bucket and most recently used. */
    method StorePage(page: Page, layer: nat, ghost tokens: nat) returns (p: nat)
      requires Valid() && layer < U32 && tokens < U64 && |page.k| == |page.v| && page.layer == layer % U16
      requires var pre := Preimage(layer, tokens, page.k, page.v); page.digest == hash(pre) && pre in born.hashed
      requires forall q :: q in pages ==> !(pages[q].digest == page.digest && pages[q].layer == page.layer)
      modifies this
      ensures caches == old(caches) && budget == old(budget) && born.hashed == old(born.hashed)
      ensures p == old(nextId) && p !in old(pages) && pages == old(pages)[p := page]
      ensures bytesLive == old(bytesLive) + page.bytes
      ensures ListsOk(S()) && Named(hash, pages, born, nextId)
      ensures bytesLive == Total(pages, lru) && pagesLive == |lru|
    {
      hide ListsOk, CachesOk, Named, Total, Preimage;
      p := nextId;
      NewKeeps(hash, S(), p, page, born, nextId, layer, tokens);
      nextId := nextId + 1;
      born := born.(at := born.at[p := (layer, tokens)]);
      buckets := buckets[BucketOf(page.digest) := [p] + buckets[BucketOf(page.digest)]];
      lru := lru + [p];
      pages := pages[p := page];
      pagesLive := pagesLive + 1;
      bytesLive := bytesLive + page.bytes;
    }

    /** Record page `p` in the next slot of sequence `c`. */
    method AddSlot(c: nat, p: nat, ntok: nat)
      requires c < |caches| && caches[c].Some? && caches[c].value.npages < |caches[c].value.pages|
      modifies this`caches
      ensures |caches| == |old(caches)| && caches == old(caches)[c := caches[c]] && caches[c].Some?
      ensures var k, k' := old(caches[c].value), caches[c].value;
              k' == k.(pages := k.pages[k.npages := Some(p)], npages := k.npages + 1, tokens := (k.tokens + ntok) % U64)
    {
      var k := caches[c].value;
      caches := caches[c := Some(k.(pages := k.pages[k.npages := Some(p)], npages := k.npages + 1,
                                    tokens := (k.tokens + ntok) % U64))];
    }
  }

  /** The hash does not give a live page's digest to a different string. */
  ghost predicate NoClash(h: seq<byte> -> Digest, pages: map<nat, Page>, born: History, pre: seq<byte>) {
    forall p :: p in pages && p in born.at && pages[p].digest == h(pre) ==>
      Preimage(born.at[p].0, born.at[p].1, pages[p].k, pages[p].v) == pre
  }

  /** What append hashes. */
  ghost function AppendPre(s: State, c: nat, layer: nat, k: seq<byte>, v: seq<byte>): seq<byte> {
    if Live(s, c) then Preimage(layer, s.caches[c].value.tokens, k, v) else []
  }

  lemma PreFacts(s: State, c: nat, layer: nat, k: seq<byte>, v: seq<byte>)
    requires Live(s, c)
    ensures AppendPre(s, c, layer, k, v) == Preimage(layer, s.caches[c].value.tokens, k, v)
  {
  }

  predicate Live(s: State, c: nat) {
    c < |s.caches| && s.caches[c].Some?
  }

  /** The error checks of append, in order. */
  ghost function AppendStatus(s: State, c: nat, layer: nat, ntok: nat): Status
    requires Live(s, c)
  {
    var q := s.caches[c].value;
    if layer >= q.layers || ntok == 0 || ntok > PAGE_TOKENS then Invalid
    else if q.npages >= |q.pages| then NoSpace
    else Ok
  }

  ghost predicate SameSequences(s: State, t: State) {
    t.caches == s.caches && forall c: nat :: View(t, c) == View(s, c)
  }

  /** Sequence `c` has one more slot and more tokens; the others are untouched. */
  ghost predicate SlotFilled(s: State, t: State, c: nat, ntok: nat) {
    && Live(s, c) && Live(t, c) && |t.caches| == |s.caches| && t.caches == s.caches[c := t.caches[c]]
    && var k, k' := s.caches[c].value, t.caches[c].value;
       && k.npages < |k.pages| && k'.npages == k.npages + 1 <= |k'.pages| == |k.pages|
       && k'.pages[..k.npages] == k.pages[..k.npages] && k'.pages[k.npages].Some?
       && k' == k.(pages := k'.pages, npages := k'.npages, tokens := (k.tokens + ntok) % U64)
  }

  ghost function LastSlot(s: State, c: nat): Option<nat> {
    if Live(s, c) && 0 < s.caches[c].value.npages <= |s.caches[c].value.pages|
    then s.caches[c].value.pages[s.caches[c].value.npages - 1] else None
  }

  /** Every live page with this digest and layer holds `ntok` tokens. */
  ghost predicate CountsAgree(pages: map<nat, Page>, digest: Digest, layer: nat, ntok: nat) {
    forall q :: q in pages && pages[q].digest == digest && pages[q].layer == layer ==> pages[q].ntokens == ntok
  }

  lemma CountOf(s: State, p: nat, ntok: nat)
    requires ListsOk(s) && p in s.pages
    ensures CountsAgree(s.pages, s.pages[p].digest, s.pages[p].layer, ntok) <==> s.pages[p].ntokens == ntok
  {
  }

  lemma CountNone(pages: map<nat, Page>, digest: Digest, layer: nat, ntok: nat)
    requires forall p :: p in pages ==> !(pages[p].digest == digest && pages[p].layer == layer)
    ensures CountsAgree(pages, digest, layer, ntok)
  {
  }

  lemma TokensFit(s: State, c: nat)
    requires CachesOk(s) && Live(s, c)
    ensures s.caches[c].value.tokens < U64 && s.caches[c].value.npages <= |s.caches[c].value.pages|
    ensures s.caches[c].value.layers > 0
  {
    assert CacheOk(s, s.caches[c].value);
  }

  lemma HashedMore(h: seq<byte> -> Digest, pages: map<nat, Page>, born: History, next: nat, pre: seq<byte>)
    requires Named(h, pages, born, next)
    ensures Named(h, pages, born.(hashed := born.hashed + {pre}), next)
  {
    hide Preimage;
    var more := born.(hashed := born.hashed + {pre});
    forall p | p in pages
      ensures PageOk(h, pages[p], p, more, next)
    {
      assert PageOk(h, pages[p], p, born, next);
    }
  }

  /** No two strings hashed so far collide. */
  ghost predicate Apart(h: seq<byte> -> Digest, strings: set<seq<byte>>) {
    forall x, y :: x in strings && y in strings && h(x) == h(y) ==> x == y
  }

  lemma ApartNoClash(h: seq<byte> -> Digest, pages: map<nat, Page>, born: History, next: nat, pre: seq<byte>)
    requires Named(h, pages, born, next) && Apart(h, born.hashed + {pre})
    ensures NoClash(h, pages, born, pre)
  {
    hide Preimage;
    forall p | p in pages && p in born.at && pages[p].digest == h(pre)
      ensures Preimage(born.at[p].0, born.at[p].1, pages[p].k, pages[p].v) == pre
    {
      assert PageOk(h, pages[p], p, born, next);
    }
  }

  lemma FilledAfter(s: State, t: State, u: State, c: nat, ntok: nat)
    requires t.caches == s.caches && SlotFilled(t, u, c, ntok)
    ensures SlotFilled(s, u, c, ntok)
  {
  }

  lemma ListsIgnore(s: State, t: State)
    requires ListsOk(s) && t == s.(caches := t.caches)
    ensures ListsOk(t)
  {
  }

  lemma AdoptTotal(s: State, p: nat, pages': map<nat, Page>, lru': seq<nat>)
    requires ListsOk(s) && p in s.pages && pages' == s.pages[p := s.pages[p].(refcount := s.pages[p].refcount + 1)]
    requires lru' == Without(s.lru, p) + [p]
    ensures Total(pages', lru') == Total(s.pages, s.lru) && |lru'| == |s.lru|
  {
    LruFacts(s);
    hide ListsOk, Without;
    TotalWithout(s.pages, s.lru, p);
    WithoutLength(s.lru, p);
    TotalAppend(s.pages, Without(s.lru, p), [p]);
    assert Total(s.pages, [p]) == s.pages[p].bytes + Total(s.pages, []);
    TotalSame(s.pages, pages', lru');
  }

  lemma LruFacts(s: State)
    requires ListsOk(s)
    ensures Distinct(s.lru) && forall p :: p in s.lru <==> p in s.pages
  {
  }

  lemma AdoptLists(s: State, p: nat, pages': map<nat, Page>, lru': seq<nat>)
    requires ListsOk(s) && p in s.pages && pages' == s.pages[p := s.pages[p].(refcount := s.pages[p].refcount + 1)]
    requires lru' == Without(s.lru, p) + [p]
    ensures ListsOk(s.(pages := pages', lru := lru'))
  {
    hide Without;
  }

  lemma AdoptNamed(h: seq<byte> -> Digest, pages: map<nat, Page>, p: nat, pages': map<nat, Page>, born: History,
          next: nat)
    requires Named(h, pages, born, next) && p in pages
    requires pages' == pages[p := pages[p].(refcount := pages[p].refcount + 1)]
    ensures Named(h, pages', born, next)
  {
    LowerOk(h, pages[p], pages'[p], p, born, next);
    hide PageOk;
  }

  lemma NewKeeps(h: seq<byte> -> Digest, s: State, p: nat, page: Page, born: History, next: nat,
          layer: nat, tokens: nat)
    requires ListsOk(s) && Named(h, s.pages, born, next) && p == next && layer < U32 && tokens < U64
    requires |page.k| == |page.v| && page.layer == layer % U16
    requires page.digest == h(Preimage(layer, tokens, page.k, page.v))
    requires Preimage(layer, tokens, page.k, page.v) in born.hashed
    requires forall q :: q in s.pages ==> !(s.pages[q].digest == page.digest && s.pages[q].layer == page.layer)
    ensures p !in s.pages && |s.buckets| == BUCKETS
    ensures var b := BucketOf(page.digest);
            ListsOk(State(s.pages[p := page], s.lru + [p], s.buckets[b := [p] + s.buckets[b]], s.caches))
    ensures Named(h, s.pages[p := page], born.(at := born.at[p := (layer, tokens)]), next + 1)
    ensures Total(s.pages[p := page], s.lru + [p]) == Total(s.pages, s.lru) + page.bytes
  {
    assert p in s.pages ==> PageOk(h, s.pages[p], p, born, next);
    NewLists(s, p, page);
    TotalAppend(s.pages[p := page], s.lru, [p]);
    TotalSame(s.pages, s.pages[p := page], s.lru);
    assert Total(s.pages[p := page], [p]) == page.bytes + Total(s.pages[p := page], []);
    NewNamed(h, s.pages, p, page, born, next, layer, tokens);
  }

  lemma NewNamed(h: seq<byte> -> Digest, pages: map<nat, Page>, p: nat, page: Page, born: History,
          next: nat, layer: nat, tokens: nat)
    requires Named(h, pages, born, next) && p == next && layer < U32 && tokens < U64
    requires |page.k| == |page.v| && page.layer == layer % U16
    requires page.digest == h(Preimage(layer, tokens, page.k, page.v))
    requires Preimage(layer, tokens, page.k, page.v) in born.hashed
    ensures Named(h, pages[p := page], born.(at := born.at[p := (layer, tokens)]), next + 1)
  {
    hide Preimage;
    forall q | q in pages
      ensures PageOk(h, pages[q], q, born.(at := born.at[p := (layer, tokens)]), next + 1)
    {
      assert PageOk(h, pages[q], q, born, next);
    }
  }

  lemma NewLists(s: State, p: nat, page: Page)
    requires ListsOk(s) && p !in s.pages
    requires forall q :: q in s.pages ==> !(s.pages[q].digest == page.digest && s.pages[q].layer == page.layer)
    ensures var b := BucketOf(page.digest);
            ListsOk(State(s.pages[p := page], s.lru + [p], s.buckets[b := [p] + s.buckets[b]], s.caches))
  {
  }

  lemma {:induction false} NoRefs(s: State, n: nat, p: nat)
    requires CachesOk(s) && p !in s.pages && n <= |s.caches|
    ensures Refs(s.caches[..n], p) == 0
  {
    if n > 0 {
      assert s.caches[..n][..n - 1] == s.caches[..n - 1];
      NoRefs(s, n - 1, p);
      if s.caches[n - 1].Some? {
        assert CacheOk(s, s.caches[n - 1].value);
      }
      NoCount(s.pages, Used(s.caches[n - 1]), p);
    }
  }

  lemma {:induction false} NoCount(pages: map<nat, Page>, ps: seq<Option<nat>>, p: nat)
    requires p !in pages && forall j :: 0 <= j < |ps| ==> ps[j].Some? && ps[j].value in pages
    ensures Count(ps, p) == 0
  {
    if ps != [] {
      NoCount(pages, ps[..|ps| - 1], p);
    }
  }

  /** One more slot pointing at a page whose count went up by one. */
  lemma AddedSlot(s: State, t: State, c: nat, p: nat, ntok: nat)
    requires RefLaw(s) && CachesOk(s) && Live(s, c) && s.caches[c].value.npages < |s.caches[c].value.pages|
    requires |t.caches| == |s.caches| && t.caches == s.caches[c := t.caches[c]] && t.caches[c].Some?
    requires var k, k' := s.caches[c].value, t.caches[c].value;
             k' == k.(pages := k.pages[k.npages := Some(p)], npages := k.npages + 1, tokens := (k.tokens + ntok) % U64)
    requires p in t.pages && t.pages.Keys == s.pages.Keys + {p}
    requires forall q :: q in s.pages && q != p ==> t.pages[q] == s.pages[q]
    requires if p in s.pages then t.pages[p] == s.pages[p].(refcount := s.pages[p].refcount + 1)
             else t.pages[p].refcount == 1
    ensures CachesOk(t) && RefLaw(t) && SlotFilled(s, t, c, ntok)
    ensures View(t, c) == View(s, c) + [Content(t.pages, Some(p))]
    ensures p in s.pages ==> Content(t.pages, Some(p)) == Content(s.pages, Some(p))
    ensures forall d: nat :: d != c ==> View(t, d) == View(s, d)
  {
    hide RefLaw, CachesOk, View, Content, SlotFilled;
    FilledSlot(s, t, c, p, ntok);
    AddedViews(s, t, c, p);
    AddedLaw(s, t, c, p);
    AddedCaches(s, t, c, p);
    if p in s.pages {
      SameContent(s.pages, t.pages, p);
    }
  }

  lemma SameContent(a: map<nat, Page>, b: map<nat, Page>, p: nat)
    requires p in a && p in b && a[p].layer == b[p].layer && a[p].k == b[p].k && a[p].v == b[p].v
    ensures Content(b, Some(p)) == Content(a, Some(p))
  {
  }

  lemma FilledSlot(s: State, t: State, c: nat, p: nat, ntok: nat)
    requires Live(s, c) && s.caches[c].value.npages < |s.caches[c].value.pages|
    requires |t.caches| == |s.caches| && t.caches == s.caches[c := t.caches[c]] && t.caches[c].Some?
    requires var k, k' := s.caches[c].value, t.caches[c].value;
             k' == k.(pages := k.pages[k.npages := Some(p)], npages := k.npages + 1, tokens := (k.tokens + ntok) % U64)
    ensures SlotFilled(s, t, c, ntok) && Used(t.caches[c]) == Used(s.caches[c]) + [Some(p)]
  {
  }

  lemma AddedViews(s: State, t: State, c: nat, p: nat)
    requires CachesOk(s) && Live(s, c) && |t.caches| == |s.caches| && t.caches == s.caches[c := t.caches[c]]
    requires Used(t.caches[c]) == Used(s.caches[c]) + [Some(p)]
    requires p in t.pages && t.pages.Keys == s.pages.Keys + {p}
    requires forall q :: q in s.pages && q != p ==> t.pages[q] == s.pages[q]
    requires p in s.pages ==> t.pages[p] == s.pages[p].(refcount := s.pages[p].refcount + 1)
    ensures View(t, c) == View(s, c) + [Content(t.pages, Some(p))]
    ensures forall d: nat :: d != c ==> View(t, d) == View(s, d)
  {
    assert CacheOk(s, s.caches[c].value);
    forall q | q in s.pages
      ensures Content(t.pages, Some(q)) == Content(s.pages, Some(q))
    {
    }
    forall d: nat | d != c && d < |s.caches|
      ensures View(t, d) == View(s, d)
    {
      SameViews(s, t, d);
    }
  }

  lemma AddedCaches(s: State, t: State, c: nat, p: nat)
    requires CachesOk(s) && Live(s, c) && Live(t, c) && |t.caches| == |s.caches|
    requires t.caches == s.caches[c := t.caches[c]]
    requires p in t.pages && t.pages.Keys == s.pages.Keys + {p}
    requires s.caches[c].value.npages < |s.caches[c].value.pages|
    requires var k, k' := s.caches[c].value, t.caches[c].value;
             && k'.pages == k.pages[k.npages := Some(p)] && k'.npages == k.npages + 1 && k'.tokens < U64
             && k'.layers == k.layers
    ensures CachesOk(t)
  {
    forall i | 0 <= i < |t.caches| && t.caches[i].Some?
      ensures CacheOk(t, t.caches[i].value)
    {
      assert s.caches[i].Some? && CacheOk(s, s.caches[i].value);
    }
  }

  lemma AddedLaw(s: State, t: State, c: nat, p: nat)
    requires RefLaw(s) && CachesOk(s) && c < |s.caches| && |t.caches| == |s.caches|
    requires t.caches == s.caches[c := t.caches[c]]
    requires Used(t.caches[c]) == Used(s.caches[c]) + [Some(p)]
    requires p in t.pages && t.pages.Keys == s.pages.Keys + {p}
    requires forall q :: q in s.pages && q != p ==> t.pages[q] == s.pages[q]
    requires if p in s.pages then t.pages[p].refcount == s.pages[p].refcount + 1 else t.pages[p].refcount == 1
    ensures RefLaw(t)
  {
    forall q | q in t.pages
      ensures t.pages[q].refcount == Refs(t.caches, q)
    {
      RefsUpdate(s.caches, c, t.caches[c], q);
      CountAppend(Used(s.caches[c]), Some(p), q);
      if q !in s.pages {
        NoRefs(s, |s.caches|, q);
        assert s.caches[..|s.caches|] == s.caches;
      }
    }
  }

  /** An adopted page holds what was appended, unless the hash has a collision. */
  lemma AdoptView(h: seq<byte> -> Digest, s: State, born: History, next: nat, layer: nat, tokens: nat, k: seq<byte>,
        v: seq<byte>)
    requires Named(h, s.pages, born, next) && layer < U32 && tokens < U64 && |k| == |v|
    ensures NoClash(h, s.pages, born, Preimage(layer, tokens, k, v)) ==>
              forall p :: p in s.pages && s.pages[p].digest == h(Preimage(layer, tokens, k, v)) ==>
                Content(s.pages, Some(p)) == (layer % U16, k, v)
  {
    hide Preimage;
    if NoClash(h, s.pages, born, Preimage(layer, tokens, k, v)) {
      forall p | p in s.pages && s.pages[p].digest == h(Preimage(layer, tokens, k, v))
        ensures Content(s.pages, Some(p)) == (layer % U16, k, v)
      {
        assert PageOk(h, s.pages[p], p, born, next);
        PreimageInjective(born.at[p].0, born.at[p].1, s.pages[p].k, s.pages[p].v, layer, tokens, k, v);
      }
    }
  }

  function ForkPages(uptoToken: nat, src: Cache): nat {
    var want := PagesFor(uptoToken, src.layers);
    if want > src.npages then src.npages else want
  }

  lemma RaisedStart(pages: map<nat, Page>)
    ensures Raised(pages, pages, [])
  {
  }

  lemma ForkLists(h: seq<byte> -> Digest, s: State, t: State, ps: seq<Option<nat>>, born: History, next: nat)
    requires t == s.(pages := t.pages, caches := t.caches) && Raised(s.pages, t.pages, ps)
    requires ListsOk(s) && Named(h, s.pages, born, next)
    ensures ListsOk(t) && Named(h, t.pages, born, next) && Total(t.pages, t.lru) == Total(s.pages, s.lru)
  {
    hide PageOk, OneEach;
    SameEach(s.pages, t.pages);
    TotalSame(s.pages, t.pages, s.lru);
    forall p | p in t.pages
      ensures PageOk(h, t.pages[p], p, born, next)
    {
      LowerOk(h, s.pages[p], t.pages[p], p, born, next);
    }
  }

  /** The counts go up by the shared slots; the slots go up by them too, less the
      slots the destination had. */
  lemma ForkLaw(s: State, t: State, dst: nat, shared: seq<Option<nat>>)
    requires RefLaw(s) && CachesOk(s) && dst < |s.caches| && s.caches[dst].Some?
    requires t == s.(pages := t.pages, caches := t.caches) && Raised(s.pages, t.pages, shared)
    requires |t.caches| == |s.caches| && t.caches == s.caches[dst := t.caches[dst]] && Used(t.caches[dst]) == shared
    requires t.caches[dst].Some? && t.caches[dst].value.npages == |shared| <= |t.caches[dst].value.pages|
    requires t.caches[dst].value.tokens < U64 && t.caches[dst].value.layers == s.caches[dst].value.layers
    requires forall j :: 0 <= j < |shared| ==> shared[j].Some? && shared[j].value in s.pages
    ensures CachesOk(t)
    ensures RefLaw(t) <==> s.caches[dst].value.npages == 0
  {
    forall i | 0 <= i < |t.caches| && t.caches[i].Some?
      ensures CacheOk(t, t.caches[i].value)
    {
      assert s.caches[i].Some? && CacheOk(s, s.caches[i].value);
      if i == dst {
        assert forall j :: 0 <= j < |shared| ==> t.caches[dst].value.pages[j] == shared[j];
      }
    }
    forall p | p in t.pages
      ensures t.pages[p].refcount == Refs(t.caches, p) + Count(Used(s.caches[dst]), p)
    {
      RefsUpdate(s.caches, dst, t.caches[dst], p);
    }
    assert CacheOk(s, s.caches[dst].value);
    var used := Used(s.caches[dst]);
    if s.caches[dst].value.npages == 0 {
      assert used == [];
    } else {
      assert used[0].Some? && used[0].value in s.pages;
      CountMember(used, 0, used[0].value);
    }
  }

  lemma ForkViews(s: State, t: State, dst: nat, src: nat, want: nat)
    requires CachesOk(s) && dst < |s.caches| && src < |s.caches| && s.caches[src].Some?
    requires want <= s.caches[src].value.npages
    requires s.caches[src].value.npages <= |s.caches[src].value.pages|
    requires t == s.(pages := t.pages, caches := t.caches)
    requires Raised(s.pages, t.pages, s.caches[src].value.pages[..want])
    requires |t.caches| == |s.caches| && t.caches == s.caches[dst := t.caches[dst]]
    requires Used(t.caches[dst]) == s.caches[src].value.pages[..want]
    ensures View(t, dst) == View(s, src)[..want]
    ensures forall d: nat :: d != dst ==> View(t, d) == View(s, d)
  {
    forall q: Option<nat>
      ensures Content(t.pages, q) == Content(s.pages, q)
    {
    }
    forall d: nat | d != dst && d < |s.caches|
      ensures View(t, d) == View(s, d)
    {
      SameViews(s, t, d);
    }
  }

  lemma LoweredStart(pages: map<nat, Page>)
    ensures Lowered(pages, pages, [])
  {
  }

  lemma CountPart(slots: seq<Option<nat>>, from: nat, i: nat, upto: nat, p: nat)
    requires from <= i < upto <= |slots|
    ensures slots[from..i + 1] == slots[from..i] + [slots[i]]
    ensures Count(slots[from..i] + [slots[i]], p) <= Count(slots[from..upto], p)
  {
    assert slots[from..upto][..i + 1 - from] == slots[from..i + 1];
    CountSplit(slots[from..upto], i + 1 - from, p);
  }

  /** A sequence with no pages; a limit of no tokens means 2048, an unknown element size means 2. */
  function Blank(layers: nat, heads: nat, dim: nat, elem: nat, maxTokens: nat): Cache {
    var slots := PagesFor(if maxTokens == 0 then 2048 else maxTokens, layers);
    Cache(layers, heads, dim, if elem == 0 then 2 else elem, seq(slots, _ => None), 0, 0)
  }

  /** A sequence cut down to its first pages. */
  function Trimmed(k: Cache, keep: nat, tokens: nat): Cache
    requires keep <= k.npages <= |k.pages|
  {
    k.(pages := k.pages[..keep] + seq(k.npages - keep, _ => None) + k.pages[k.npages..], npages := keep,
       tokens := tokens)
  }

  /** A sequence whose first slots are those of another. */
  function Forked(to: Cache, from: Cache, want: nat, tokens: nat): Cache
    requires want <= |from.pages| && want <= |to.pages|
  {
    to.(pages := from.pages[..want] + to.pages[want..], npages := want, tokens := tokens)
  }

  /** Of `have` pages, those are left or shared that cover the tokens: all of them, or the fewest whole rows. */
  ghost predicate Cut(left: nat, have: nat, tokens: nat, layers: nat)
    requires layers > 0
  {
    exists n: nat :: Covering(n, tokens, layers) && left == if n < have then n else have
  }

  lemma CutTo(n: nat, have: nat, tokens: nat, layers: nat)
    requires layers > 0
    ensures Covering(n, tokens, layers) ==> Cut(if n < have then n else have, have, tokens, layers)
  {
  }

  lemma UsedParts(k: Cache, keep: nat)
    requires keep <= k.npages <= |k.pages|
    ensures Used(Some(k)) == k.pages[..keep] + k.pages[keep..k.npages]
    ensures Used(None) == k.pages[..0]
    ensures keep == k.npages ==> Used(Some(k)) == k.pages[..keep]
  {
  }

  /** A run of slots of a live sequence never holds more references than the pages count. */
  lemma UsedFits(s: State, c: nat, from: nat, upto: nat)
    requires RefLaw(s) && CachesOk(s) && c < |s.caches| && s.caches[c].Some?
    requires from <= upto <= s.caches[c].value.npages
    ensures var k := s.caches[c].value;
            && k.npages <= |k.pages|
            && (forall j :: from <= j < upto ==> k.pages[j].Some? && k.pages[j].value in s.pages)
            && (forall p :: p in s.pages ==> Count(k.pages[from..upto], p) <= s.pages[p].refcount)
  {
    var k := s.caches[c].value;
    assert CacheOk(s, k);
    var used := Used(s.caches[c]);
    assert used == k.pages[..k.npages];
    assert used[..upto][from..] == k.pages[from..upto];
    hide Used, Count, CacheOk, Refs;
    forall p | p in s.pages
      ensures Count(k.pages[from..upto], p) <= s.pages[p].refcount
    {
      RefsAtLeast(s.caches, c, p);
      CountSplit(used, upto, p);
      CountSplit(used[..upto], from, p);
    }
  }

  /** Replacing a sequence by a shorter one after giving back the difference. */
  lemma SlotsGone(s: State, t: State, c: nat, after: Option<Cache>, kept: seq<Option<nat>>, gone: seq<Option<nat>>)
    requires RefLaw(s) && CachesOk(s) && c < |s.caches| && s.caches[c].Some?
    requires t == s.(pages := t.pages) && Lowered(s.pages, t.pages, gone)
    requires Used(s.caches[c]) == kept + gone && Used(after) == kept
    requires after.Some? ==>
               after.value.npages <= |after.value.pages| && after.value.tokens < U64 && after.value.layers > 0
    ensures var u := t.(caches := t.caches[c := after]);
            CachesOk(u) && RefLaw(u)
  {
    var u := t.(caches := t.caches[c := after]);
    forall i | 0 <= i < |u.caches| && u.caches[i].Some?
      ensures CacheOk(u, u.caches[i].value)
    {
      assert s.caches[i].Some? && CacheOk(s, s.caches[i].value);
      if i == c {
        forall j | 0 <= j < after.value.npages
          ensures after.value.pages[j].Some? && after.value.pages[j].value in u.pages
        {
          assert after.value.pages[j] == Used(after)[j] == (kept + gone)[j] == Used(s.caches[c])[j];
        }
      }
    }
    forall p | p in u.pages
      ensures u.pages[p].refcount == Refs(u.caches, p)
    {
      RefsUpdate(s.caches, c, after, p);
      CountSplit(kept + gone, |kept|, p);
      assert (kept + gone)[..|kept|] == kept && (kept + gone)[|kept|..] == gone;
    }
  }

  /** Lowering counts disturbs neither lists, sizes nor digests. */
  lemma LoweredKeeps(h: seq<byte> -> Digest, s: State, t: State, ps: seq<Option<nat>>, born: History,
          next: nat)
    requires t == s.(pages := t.pages, caches := t.caches) && Lowered(s.pages, t.pages, ps)
    requires ListsOk(s) && Named(h, s.pages, born, next)
    ensures ListsOk(t) && Named(h, t.pages, born, next) && Total(t.pages, t.lru) == Total(s.pages, s.lru)
  {
    hide PageOk, OneEach;
    SameEach(s.pages, t.pages);
    TotalSame(s.pages, t.pages, s.lru);
    forall p | p in t.pages
      ensures PageOk(h, t.pages[p], p, born, next)
    {
      LowerOk(h, s.pages[p], t.pages[p], p, born, next);
    }
  }

  lemma LowerOk(h: seq<byte> -> Digest, a: Page, b: Page, p: nat, born: History, next: nat)
    requires PageOk(h, a, p, born, next) && b == a.(refcount := b.refcount)
    ensures PageOk(h, b, p, born, next)
  {
  }

  lemma LoweredViews(s: State, t: State, u: State, c: nat, ps: seq<Option<nat>>)
    requires CachesOk(s) && Lowered(s.pages, t.pages, ps) && c < |s.caches| && u == t.(caches := u.caches)
    requires t.caches == s.caches
    requires |u.caches| == |s.caches| && forall d :: 0 <= d < |s.caches| && d != c ==> u.caches[d] == s.caches[d]
    ensures forall d: nat :: d != c ==> View(u, d) == View(s, d)
    ensures Used(u.caches[c]) <= Used(s.caches[c]) ==> View(u, c) == View(s, c)[..|Used(u.caches[c])|]
  {
    forall d: nat | d != c && d < |s.caches|
      ensures View(u, d) == View(s, d)
    {
      SameViews(s, u, d);
    }
    forall q: Option<nat>
      ensures Content(u.pages, q) == Content(s.pages, q)
    {
    }
  }

  /** The first `i` pages of the list have been dealt with: the referenced ones stay,
      in order, and the others are gone. */
  ghost predicate EvictedTo(s: State, t: State, i: nat)
    requires i <= |s.lru|
  {
    && t.caches == s.caches
    && t.lru == InUse(s.pages, s.lru[..i]) + s.lru[i..]
    && (forall p :: p in t.pages ==> p in s.pages && t.pages[p] == s.pages[p])
    && (forall p :: p in s.pages && p !in t.pages ==> s.pages[p].refcount == 0)
    && ListsOk(s) && ListsOk(t)
  }

  /** The page freed last did not fit the budget. */
  ghost predicate LastWasNeeded(before: map<nat, Page>, after: map<nat, Page>, bytes: nat, budget: nat) {
    exists p :: p in before && p !in after && bytes + before[p].bytes > budget
  }

  lemma EvictStart(s: State)
    requires ListsOk(s)
    ensures EvictedTo(s, s, 0)
  {
    assert s.lru[..0] == [];
  }

  lemma EvictFacts(s: State, t: State, i: nat)
    requires i < |s.lru| && EvictedTo(s, t, i)
    ensures s.lru[i] in t.pages && s.lru[i] in s.pages && t.pages[s.lru[i]] == s.pages[s.lru[i]]
    ensures |t.buckets| == BUCKETS
  {
    assert s.lru[i] == t.lru[|InUse(s.pages, s.lru[..i])|];
  }

  lemma EvictSkip(s: State, t: State, i: nat)
    requires i < |s.lru| && EvictedTo(s, t, i) && s.lru[i] in s.pages && s.pages[s.lru[i]].refcount > 0
    ensures EvictedTo(s, t, i + 1)
  {
    hide ListsOk;
    assert s.lru[..i + 1][..i] == s.lru[..i];
  }

  lemma EvictStep(s: State, t: State, i: nat)
    requires i < |s.lru| && EvictedTo(s, t, i) && s.lru[i] in t.pages && t.pages[s.lru[i]].refcount == 0
    requires |t.buckets| == BUCKETS
    ensures EvictedTo(s, FreeState(t, s.lru[i]), i + 1)
  {
    hide ListsOk, InUse, Without;
    FreeLists(t, s.lru[i]);
    EvictLru(s, t, i);
  }

  lemma EvictLru(s: State, t: State, i: nat)
    requires i < |s.lru| && EvictedTo(s, t, i) && s.lru[i] in t.pages && t.pages[s.lru[i]].refcount == 0
    ensures Without(t.lru, s.lru[i]) == InUse(s.pages, s.lru[..i + 1]) + s.lru[i + 1..]
  {
    hide ListsOk, InUse, Without;
    var p := s.lru[i];
    var a := InUse(s.pages, s.lru[..i]);
    DistinctParts(s, i);
    InUseStep(s.pages, s.lru, i);
    assert t.lru == a + [p] + s.lru[i + 1..];
    WithoutMiddle(a, p, s.lru[i + 1..]);
  }

  lemma InUseStep(pages: map<nat, Page>, ids: seq<nat>, i: nat)
    requires i < |ids|
    ensures InUse(pages, ids[..i + 1]) ==
            InUse(pages, ids[..i]) + if ids[i] in pages && pages[ids[i]].refcount > 0 then [ids[i]] else []
  {
    assert ids[..i + 1][..i] == ids[..i];
  }

  lemma DistinctParts(s: State, i: nat)
    requires i < |s.lru| && ListsOk(s)
    ensures s.lru[i] !in InUse(s.pages, s.lru[..i]) && s.lru[i] !in s.lru[i + 1..]
  {
    hide InUse;
    assert s.lru[i] !in s.lru[..i];
  }

  lemma Needed(s: State, t: State, u: State, p: nat, i: nat, bytes: nat, budget: nat)
    requires i <= |s.lru| && EvictedTo(s, t, i) && p in t.pages && |t.buckets| == BUCKETS && u == FreeState(t, p)
    requires bytes + t.pages[p].bytes > budget
    ensures LastWasNeeded(s.pages, u.pages, bytes, budget)
  {
    hide ListsOk, InUse;
    assert p in s.pages && p !in u.pages;
  }

  lemma EvictDone(s: State, t: State, i: nat)
    requires RefLaw(s) && CachesOk(s) && i <= |s.lru| && EvictedTo(s, t, i)
    ensures i == |s.lru| ==> forall p :: p in t.pages ==> t.pages[p].refcount > 0
    ensures forall p :: p in t.pages ==> p in s.pages && t.pages[p] == s.pages[p]
    ensures forall c: nat :: View(t, c) == View(s, c)
  {
    if i == |s.lru| {
      assert s.lru[..i] == s.lru;
      InUseHasRefs(s.pages, s.lru);
    }
    hide ListsOk, InUse;
    forall c: nat
      ensures View(t, c) == View(s, c)
    {
      if c < |s.caches| {
        forall p | p in s.pages && exists j :: 0 <= j < |Used(s.caches[c])| && Used(s.caches[c])[j] == Some(p)
          ensures p in t.pages
        {
          var j :| 0 <= j < |Used(s.caches[c])| && Used(s.caches[c])[j] == Some(p);
          CountMember(Used(s.caches[c]), j, p);
          RefsAtLeast(s.caches, c, p);
        }
        SameViews(s, t, c);
      }
    }
  }

  lemma {:induction false} InUseHasRefs(pages: map<nat, Page>, ids: seq<nat>)
    ensures forall p :: p in InUse(pages, ids) ==> p in pages && pages[p].refcount > 0
  {
    if ids != [] {
      InUseHasRefs(pages, ids[..|ids| - 1]);
    }
  }

  ghost function FreeState(s: State, p: nat): State
    requires p in s.pages && |s.buckets| == BUCKETS
  {
    var b := BucketOf(s.pages[p].digest);
    State(s.pages - {p}, Without(s.lru, p), s.buckets[b := Without(s.buckets[b], p)], s.caches)
  }

  lemma FreeTotals(s: State, p: nat)
    requires ListsOk(s) && p in s.pages
    ensures |s.buckets| == BUCKETS && |s.lru| >= 1 && |Without(s.lru, p)| == |s.lru| - 1
    ensures Total(s.pages, s.lru) == s.pages[p].bytes + Total(s.pages - {p}, Without(s.lru, p))
  {
    TotalWithout(s.pages, s.lru, p);
    WithoutLength(s.lru, p);
    TotalSame(s.pages, s.pages - {p}, Without(s.lru, p));
  }

  lemma NamedLess(h: seq<byte> -> Digest, pages: map<nat, Page>, p: nat, born: History, next: nat)
    requires Named(h, pages, born, next)
    ensures Named(h, pages - {p}, born, next)
  {
  }

  lemma CreateCaches(s: State, blank: Cache)
    requires CachesOk(s) && blank.npages == 0 && blank.tokens < U64 && blank.layers > 0
    ensures var s1 := s.(caches := s.caches + [Some(blank)]);
            && CachesOk(s1) && (RefLaw(s) ==> RefLaw(s1)) && (ListsOk(s) ==> ListsOk(s1))
            && View(s1, |s.caches|) == []
            && forall i :: 0 <= i < |s.caches| ==> View(s1, i) == View(s, i)
  {
    forall p
      ensures Refs(s.caches + [Some(blank)], p) == Refs(s.caches, p)
    {
      RefsAppend(s.caches, Some(blank), p);
      assert Count([], p) == 0;
    }
    hide Refs, Count, BucketOf;
    var s1 := s.(caches := s.caches + [Some(blank)]);
    assert ListsOk(s) ==> ListsOk(s1) by {
      hide OneEach;
    }
    assert CacheOk(s1, blank);
    assert CachesOk(s1) by {
      assert forall i :: 0 <= i < |s.caches| && s.caches[i].Some? ==> CacheOk(s, s.caches[i].value);
    }
  }

  lemma BucketFacts(s: State, d: Digest)
    requires ListsOk(s)
    ensures |s.buckets| == BUCKETS
    ensures forall p :: p in s.buckets[BucketOf(d)] ==> p in s.pages
    ensures forall p :: p in s.pages && s.pages[p].digest == d ==> p in s.buckets[BucketOf(d)]
  {
  }

  lemma FreeLists(s: State, p: nat)
    requires ListsOk(s) && p in s.pages
    ensures ListsOk(FreeState(s, p))
  {
  }

  lemma FreeCaches(s: State, p: nat)
    requires RefLaw(s) && CachesOk(s) && p in s.pages && s.pages[p].refcount == 0 && |s.buckets| == BUCKETS
    ensures CachesOk(FreeState(s, p)) && RefLaw(FreeState(s, p))
  {
    NoSlots(s, p);
    forall i | 0 <= i < |s.caches| && s.caches[i].Some?
      ensures CacheOk(FreeState(s, p), s.caches[i].value)
    {
      assert CacheOk(s, s.caches[i].value);
    }
  }

  /** An unreferenced page is in no slot. */
  lemma NoSlots(s: State, p: nat)
    requires RefLaw(s) && CachesOk(s) && p in s.pages && s.pages[p].refcount == 0
    ensures forall i, j :: 0 <= i < |s.caches| && s.caches[i].Some? && 0 <= j < s.caches[i].value.npages ==>
              j < |s.caches[i].value.pages| && s.caches[i].value.pages[j] != Some(p)
  {
    forall i, j | 0 <= i < |s.caches| && s.caches[i].Some? && 0 <= j < s.caches[i].value.npages
      ensures j < |s.caches[i].value.pages| && s.caches[i].value.pages[j] != Some(p)
    {
      assert CacheOk(s, s.caches[i].value);
      RefsAtLeast(s.caches, i, p);
      if s.caches[i].value.pages[j] == Some(p) {
        CountMember(Used(s.caches[i]), j, p);
      }
    }
  }

  lemma {:induction false} WithoutLength(ids: seq<nat>, p: nat)
    requires Distinct(ids) && p in ids
    ensures |Without(ids, p)| == |ids| - 1
  {
    if ids[0] == p {
      assert p !in ids[1..];
      WithoutNone(ids[1..], p);
    } else {
      WithoutLength(ids[1..], p);
    }
  }
}
