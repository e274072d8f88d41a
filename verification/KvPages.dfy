/** Pages and sequences of the paged attention cache (kernel/ai/kv.c), as data. */
module KvPages {
  import opened Arith
  import opened Common
  import opened Bytes
  import opened DigestOrder

  const PAGE_TOKENS: nat := 16
  const BUCKETS: nat := 256

  datatype Page = Page(digest: Digest, layer: nat, ntokens: nat, refcount: nat, bytes: nat,
                       k: seq<byte>, v: seq<byte>)

  /** `pages` is the fixed array of max_pages pointers; the first npages are in use. */
  datatype Cache = Cache(layers: nat, heads: nat, dim: nat, elem: nat,
                         pages: seq<Option<nat>>, npages: nat, tokens: nat)

  function PageBytes(c: Cache): nat {
    PAGE_TOKENS * c.heads * c.dim * c.elem
  }

  /** Whole rows of one page for each layer, the fewest rows of sixteen tokens that hold the tokens. */
  predicate Covering(n: nat, tokens: nat, layers: nat)
    requires layers > 0
  {
    n % layers == 0 && n / layers * 16 >= tokens && (n > 0 ==> (n / layers - 1) * 16 < tokens)
  }

  /** There is one such number. */
  lemma OneCovering(n: nat, m: nat, tokens: nat, layers: nat)
    requires layers > 0 && Covering(n, tokens, layers) && Covering(m, tokens, layers)
    ensures n == m
  {
    Parts(n, layers);
    Parts(m, layers);
  }

  /** The number of pages for the tokens fits 32 bits, and so does rounding the tokens up. */
  predicate Narrow(tokens: nat, layers: nat) {
    tokens + 15 < U32 && (tokens + 15) / 16 * layers < U32
  }

  /** DIV_ROUND_UP(tokens, 16) * layers in 32-bit arithmetic. */
  function PagesFor(tokens: nat, layers: nat): nat {
    (tokens + PAGE_TOKENS - 1) % U32 / PAGE_TOKENS * layers % U32
  }

  /** The number of pages computed is the one that covers the tokens exactly when nothing wraps; from 2^32 - 15
      tokens on it is zero. */
  lemma PagesCover(tokens: nat, layers: nat)
    requires layers > 0 && tokens < U32
    ensures Covering(PagesFor(tokens, layers), tokens, layers) <==> Narrow(tokens, layers)
    ensures tokens + 15 >= U32 ==> PagesFor(tokens, layers) == 0
  {
    hide Covering;
    if tokens + 15 < U32 {
      var rows := (tokens + 15) / 16;
      if rows * layers < U32 {
        RowsCover(rows, tokens, layers);
      } else {
        TooFew(rows * layers % U32, rows, tokens, layers);
      }
    } else {
      assert PagesFor(tokens, layers) == 0 by {
        assert (tokens + 15) % U32 / 16 == 0;
      }
      TooFew(0, 1, tokens, layers);
    }
  }

  lemma RowsCover(rows: nat, tokens: nat, layers: nat)
    requires layers > 0 && rows == (tokens + 15) / 16
    ensures Covering(rows * layers, tokens, layers)
  {
    ModUnique(rows * layers, rows, 0, layers);
  }

  lemma TooFew(n: nat, rows: nat, tokens: nat, layers: nat)
    requires layers > 0 && n < rows * layers && (rows - 1) * 16 < tokens
    ensures !Covering(n, tokens, layers)
  {
    if Covering(n, tokens, layers) {
      Parts(n, layers);
      Grows(rows, n / layers, layers);
    }
  }

  function BucketOf(d: Digest): (b: nat)
    ensures b < BUCKETS
  {
    ((d[0] as int) * 256 + d[1]) % BUCKETS
  }

  /** What rk_kv_append hashes: layer, position and contents. */
  function Preimage(layer: nat, tokens: nat, k: seq<byte>, v: seq<byte>): seq<byte> {
    Le32(layer) + Le64(tokens) + k + v
  }

  lemma Le32Injective(a: nat, b: nat)
    requires a < U32 && b < U32 && Le32(a) == Le32(b)
    ensures a == b
  {
    Le32RoundTrip(a);
    Le32RoundTrip(b);
  }

  lemma Le64Injective(a: nat, b: nat)
    requires a < U64 && b < U64 && Le64(a) == Le64(b)
    ensures a == b
  {
    SplitEqual(Le32(a % U32), Le32(a / U32), Le32(b % U32), Le32(b / U32));
    Le32Injective(a % U32, b % U32);
    Le32Injective(a / U32, b / U32);
  }

  /** The hashed string determines everything in it: the two halves have equal length. */
  lemma PreimageInjective(l: nat, t: nat, k: seq<byte>, v: seq<byte>, l': nat, t': nat, k': seq<byte>, v': seq<byte>)
    requires l < U32 && l' < U32 && t < U64 && t' < U64 && |k| == |v| && |k'| == |v'|
    requires Preimage(l, t, k, v) == Preimage(l', t', k', v')
    ensures l == l' && t == t' && k == k' && v == v'
  {
    hide Le32, Le64;
    assert |Preimage(l, t, k, v)| == 12 + 2 * |k| && |Preimage(l', t', k', v')| == 12 + 2 * |k'|;
    SplitEqual(Le32(l) + Le64(t) + k, v, Le32(l') + Le64(t') + k', v');
    SplitEqual(Le32(l) + Le64(t), k, Le32(l') + Le64(t'), k');
    SplitEqual(Le32(l), Le64(t), Le32(l'), Le64(t'));
    Le32Injective(l, l');
    Le64Injective(t, t');
  }

  // ---- counting the slots that point at a page

  function Count(ps: seq<Option<nat>>, p: nat): nat {
    if ps == [] then 0
    else Count(ps[..|ps| - 1], p) + if ps[|ps| - 1] == Some(p) then 1 else 0
  }

  function Used(c: Option<Cache>): seq<Option<nat>> {
    if c.None? || c.value.npages > |c.value.pages| then [] else c.value.pages[..c.value.npages]
  }

  /** Slots of all live sequences that point at page `p`. */
  function Refs(caches: seq<Option<Cache>>, p: nat): nat {
    if caches == [] then 0
    else Refs(caches[..|caches| - 1], p) + Count(Used(caches[|caches| - 1]), p)
  }

  lemma {:induction false} RefsUpdate(caches: seq<Option<Cache>>, i: nat, c: Option<Cache>, p: nat)
    requires i < |caches|
    ensures Refs(caches[i := c], p) == Refs(caches, p) - Count(Used(caches[i]), p) + Count(Used(c), p)
  {
    hide Count, Used;
    var n := |caches| - 1;
    var after := caches[i := c];
    if i == n {
      assert after[..n] == caches[..n];
    } else {
      RefsUpdate(caches[..n], i, c, p);
      assert after[..n] == caches[..n][i := c];
    }
  }

  lemma RefsAppend(caches: seq<Option<Cache>>, c: Option<Cache>, p: nat)
    ensures Refs(caches + [c], p) == Refs(caches, p) + Count(Used(c), p)
  {
    assert (caches + [c])[..|caches|] == caches;
  }

  lemma {:induction false} RefsAtLeast(caches: seq<Option<Cache>>, i: nat, p: nat)
    requires i < |caches|
    ensures Refs(caches, p) >= Count(Used(caches[i]), p)
  {
    var n := |caches| - 1;
    if i < n {
      RefsAtLeast(caches[..n], i, p);
    }
  }

  lemma CountAppend(ps: seq<Option<nat>>, q: Option<nat>, p: nat)
    ensures Count(ps + [q], p) == Count(ps, p) + if q == Some(p) then 1 else 0
  {
    assert (ps + [q])[..|ps|] == ps;
  }

  lemma {:induction false} CountMember(ps: seq<Option<nat>>, i: nat, p: nat)
    requires i < |ps| && ps[i] == Some(p)
    ensures Count(ps, p) > 0
  {
    if i < |ps| - 1 {
      CountMember(ps[..|ps| - 1], i, p);
    }
  }

  lemma {:induction false} CountSplit(ps: seq<Option<nat>>, i: nat, p: nat)
    requires i <= |ps|
    ensures Count(ps, p) == Count(ps[..i], p) + Count(ps[i..], p)
  {
    if i < |ps| {
      var n := |ps| - 1;
      CountSplit(ps[..n], i, p);
      assert ps[..n][..i] == ps[..i] && ps[..n][i..] == ps[i..][..n - i];
    } else {
      assert ps[..i] == ps && ps[i..] == [];
    }
  }

  // ---- lists of page ids

  /** Bytes of the listed pages. */
  function Total(pages: map<nat, Page>, ids: seq<nat>): nat {
    if ids == [] then 0
    else (if ids[0] in pages then pages[ids[0]].bytes else 0) + Total(pages, ids[1..])
  }

  lemma {:induction false} TotalAppend(pages: map<nat, Page>, a: seq<nat>, b: seq<nat>)
    ensures Total(pages, a + b) == Total(pages, a) + Total(pages, b)
  {
    if a == [] {
      assert a + b == b;
    } else {
      assert (a + b)[1..] == a[1..] + b;
      TotalAppend(pages, a[1..], b);
    }
  }

  lemma {:induction false} TotalSame(pages: map<nat, Page>, pages': map<nat, Page>, ids: seq<nat>)
    requires forall p :: p in ids ==> p in pages && p in pages' && pages'[p].bytes == pages[p].bytes
    ensures Total(pages', ids) == Total(pages, ids)
  {
    if ids != [] {
      assert ids[0] in ids && forall p :: p in ids[1..] ==> p in ids;
      TotalSame(pages, pages', ids[1..]);
    }
  }

  lemma {:induction false} TotalWithout(pages: map<nat, Page>, ids: seq<nat>, p: nat)
    requires Distinct(ids) && p in ids && p in pages
    ensures Total(pages, ids) == pages[p].bytes + Total(pages, Without(ids, p))
  {
    if ids[0] == p {
      assert p !in ids[1..];
      WithoutNone(ids[1..], p);
    } else {
      TotalWithout(pages, ids[1..], p);
    }
  }

  lemma {:induction false} WithoutNone(ids: seq<nat>, p: nat)
    requires p !in ids
    ensures Without(ids, p) == ids
  {
    if ids != [] {
      assert forall x :: x in ids[1..] ==> x in ids;
      WithoutNone(ids[1..], p);
    }
  }

  /** The listed pages that are in use. */
  ghost function InUse(pages: map<nat, Page>, ids: seq<nat>): (r: seq<nat>)
    ensures forall p :: p in r ==> p in ids
  {
    if ids == [] then []
    else
      var n := |ids| - 1;
      InUse(pages, ids[..n]) + if ids[n] in pages && pages[ids[n]].refcount > 0 then [ids[n]] else []
  }

  lemma {:induction false} WithoutMiddle(a: seq<nat>, p: nat, b: seq<nat>)
    requires p !in a && p !in b
    ensures Without(a + [p] + b, p) == a + b
  {
    if a == [] {
      assert (a + [p] + b)[1..] == b && a + b == b;
      WithoutNone(b, p);
    } else {
      assert (a + [p] + b)[1..] == a[1..] + [p] + b;
      assert forall x :: x in a[1..] ==> x in a;
      WithoutMiddle(a[1..], p, b);
      assert a + b == [a[0]] + (a[1..] + b);
    }
  }

  // ---- dropping and adding many references

  /** Every listed reference has been given back. */
  ghost predicate Lowered(before: map<nat, Page>, after: map<nat, Page>, ps: seq<Option<nat>>) {
    && after.Keys == before.Keys
    && forall p :: p in before ==>
         after[p].refcount + Count(ps, p) == before[p].refcount && after[p] == before[p].(refcount := after[p].refcount)
  }

  /** Every listed reference has been taken. */
  ghost predicate Raised(before: map<nat, Page>, after: map<nat, Page>, ps: seq<Option<nat>>) {
    && after.Keys == before.Keys
    && forall p :: p in before ==>
         after[p].refcount == before[p].refcount + Count(ps, p) && after[p] == before[p].(refcount := after[p].refcount)
  }

  lemma LowerOne(before: map<nat, Page>, after: map<nat, Page>, ps: seq<Option<nat>>, p: nat)
    requires Lowered(before, after, ps) && p in before
    requires Count(ps + [Some(p)], p) <= before[p].refcount
    ensures after[p].refcount > 0
    ensures Lowered(before, after[p := after[p].(refcount := after[p].refcount - 1)], ps + [Some(p)])
  {
    CountAppends(ps, p);
    hide Count;
  }

  lemma RaiseOne(before: map<nat, Page>, after: map<nat, Page>, ps: seq<Option<nat>>, p: nat)
    requires Raised(before, after, ps) && p in before
    ensures Raised(before, after[p := after[p].(refcount := after[p].refcount + 1)], ps + [Some(p)])
  {
    CountAppends(ps, p);
    hide Count;
  }

  lemma CountAppends(ps: seq<Option<nat>>, p: nat)
    ensures forall q :: Count(ps + [Some(p)], q) == Count(ps, q) + if q == p then 1 else 0
  {
    forall q
      ensures Count(ps + [Some(p)], q) == Count(ps, q) + if q == p then 1 else 0
    {
      CountAppend(ps, Some(p), q);
    }
  }
}
