/** Whole runs of the attention cache (kernel/ai/kv.c): the shared pages behave as private page lists. */
module KvRun {
  import opened Common
  import opened Bytes
  import opened DigestOrder
  import opened KvPages
  import opened KvCache

  type Item = (nat, seq<byte>, seq<byte>)

  /** A sequence with a page list of its own. */
  datatype Private = Private(layers: nat, heads: nat, dim: nat, elem: nat, room: nat, items: seq<Item>, tokens: nat)

  datatype Call =
    | Create(layers: nat, heads: nat, dim: nat, elem: nat, maxTokens: nat, memory: bool)
    | Append(c: nat, layer: nat, k: seq<byte>, v: seq<byte>, ntok: nat, memory: bool)
    | Fork(dst: nat, src: nat, uptoToken: nat)
    | Trim(c: nat, keepTokens: nat)
    | Destroy(c: nat)
    | Pressure(want: nat)

  ghost function PrivateOf(s: State, c: nat): Option<Private>
    requires c < |s.caches|
  {
    if s.caches[c].None? then None
    else
      var q := s.caches[c].value;
      Some(Private(q.layers, q.heads, q.dim, q.elem, |q.pages|, View(s, c), q.tokens))
  }

  /** The private lists a state of the shared cache stands for. */
  ghost function Privates(s: State): seq<Option<Private>> {
    seq(|s.caches|, c requires 0 <= c < |s.caches| => PrivateOf(s, c))
  }

  ghost predicate Has(ps: seq<Option<Private>>, c: nat) {
    c < |ps| && ps[c].Some?
  }

  /** What the caller must respect: live sequences, whole pages, 32-bit numbers, and an empty sequence to fork into. */
  ghost predicate Callable(ps: seq<Option<Private>>, call: Call) {
    match call
    case Create(_, _, _, _, maxTokens, _) => maxTokens < U32
    case Append(c, layer, k, v, ntok, _) =>
      && Has(ps, c) && layer < U32 && ntok < U32
      && |k| == |v| == PAGE_TOKENS * ps[c].value.heads * ps[c].value.dim * ps[c].value.elem
    case Fork(dst, src, upto) => Has(ps, dst) && Has(ps, src) && upto < U32 && ps[dst].value.items == []
    case Trim(c, keep) => Has(ps, c) && keep < U32
    case Destroy(c) => Has(ps, c)
    case Pressure(_) => true
  }

  /** A row is begun for each sixteen tokens. */
  ghost function Rows(tokens: nat): (r: nat)
    ensures r * 16 >= tokens && (r > 0 ==> (r - 1) * 16 < tokens)
  {
    if tokens == 0 then 0 else 1 + Rows(if tokens > 16 then tokens - 16 else 0)
  }

  /** A page for each layer in each row, in 32 bits; rounding up must not wrap either. */
  ghost function Share(tokens: nat, layers: nat): nat {
    (if tokens + 15 < U32 then Rows(tokens) else 0) * layers % U32
  }

  lemma ShareIs(tokens: nat, layers: nat)
    requires tokens < U32
    ensures PagesFor(tokens, layers) == Share(tokens, layers)
  {
    var rows := (tokens + PAGE_TOKENS - 1) % U32 / PAGE_TOKENS;
    assert rows == if tokens + 15 < U32 then Rows(tokens) else 0;
  }

  ghost function ForkItems(ps: seq<Option<Private>>, src: nat, upto: nat): seq<Item>
    requires Has(ps, src)
  {
    var want := Share(upto, ps[src].value.layers);
    if want > |ps[src].value.items| then ps[src].value.items else ps[src].value.items[..want]
  }

  /** The answer on private lists, with memory to spare. */
  ghost function Answer(ps: seq<Option<Private>>, call: Call): Status
    requires Callable(ps, call)
  {
    match call
    case Create(layers, heads, dim, _, _, memory) =>
      if layers == 0 || heads == 0 || dim == 0 then Invalid else if memory then Ok else NoMemory
    case Append(c, layer, _, _, ntok, _) =>
      if layer >= ps[c].value.layers || ntok == 0 || ntok > PAGE_TOKENS then Invalid
      else if |ps[c].value.items| >= ps[c].value.room then NoSpace
      else Ok
    case Fork(dst, src, upto) => if |ForkItems(ps, src, upto)| > ps[dst].value.room then NoSpace else Ok
    case _ => Ok
  }

  /** The private lists after a successful call. */
  ghost function After(ps: seq<Option<Private>>, call: Call): seq<Option<Private>>
    requires Callable(ps, call)
  {
    match call
    case Create(layers, heads, dim, elem, maxTokens, _) =>
      ps + [Some(Private(layers, heads, dim, if elem == 0 then 2 else elem,
                         Share(if maxTokens == 0 then 2048 else maxTokens, layers), [], 0))]
    case Append(c, layer, k, v, ntok, _) =>
      var q := ps[c].value;
      ps[c := Some(q.(items := q.items + [(layer % U16, k, v)], tokens := (q.tokens + ntok) % U64))]
    case Fork(dst, src, upto) => ps[dst := Some(ps[dst].value.(items := ForkItems(ps, src, upto), tokens := upto))]
    case Trim(c, keep) =>
      var q := ps[c].value;
      var want := Share(keep, q.layers);
      if want >= |q.items| then ps else ps[c := Some(q.(items := q.items[..want], tokens := keep))]
    case Destroy(c) => ps[c := None]
    case Pressure(_) => ps
  }

  /** An answer the lists allow: memory may run out where a page would have to be stored. */
  ghost predicate Allowed(ps: seq<Option<Private>>, call: Call, r: Status) {
    if !Callable(ps, call) then r == Invalid
    else r == Answer(ps, call) || (r == NoMemory && call.Append? && !call.memory && Answer(ps, call) == Ok)
  }

  ghost function Next(ps: seq<Option<Private>>, call: Call, r: Status): seq<Option<Private>> {
    if r == Ok && Callable(ps, call) then After(ps, call) else ps
  }

  /** Private lists after a run of calls with these answers. */
  ghost function Replay(calls: seq<Call>, got: seq<Status>): seq<Option<Private>>
    requires |got| == |calls|
    decreases |calls|
  {
    if calls == [] then []
    else
      var n := |calls| - 1;
      Next(Replay(calls[..n], got[..n]), calls[n], got[n])
  }

  /** The check of `Callable` on the shared cache. */
  predicate Ready(caches: seq<Option<Cache>>, call: Call) {
    match call
    case Create(_, _, _, _, maxTokens, _) => maxTokens < U32
    case Append(c, layer, k, v, ntok, _) =>
      && c < |caches| && caches[c].Some? && layer < U32 && ntok < U32
      && |k| == |v| == PageBytes(caches[c].value)
    case Fork(dst, src, upto) =>
      && dst < |caches| && caches[dst].Some? && src < |caches| && caches[src].Some? && upto < U32
      && caches[dst].value.npages == 0
    case Trim(c, keep) => c < |caches| && caches[c].Some? && keep < U32
    case Destroy(c) => c < |caches| && caches[c].Some?
    case Pressure(_) => true
  }

  lemma ViewLength(s: State, c: nat)
    requires CachesOk(s) && c < |s.caches| && s.caches[c].Some?
    ensures |View(s, c)| == s.caches[c].value.npages <= |s.caches[c].value.pages|
  {
    assert CacheOk(s, s.caches[c].value);
  }

  lemma ReadyIsCallable(s: State, call: Call)
    requires CachesOk(s)
    ensures Ready(s.caches, call) <==> Callable(Privates(s), call)
  {
    if call.Fork? && call.dst < |s.caches| && s.caches[call.dst].Some? {
      ViewLength(s, call.dst);
    }
  }

  /** Unchanged sequences that read back the same. */
  lemma SamePrivates(s: State, t: State)
    requires SameSequences(s, t)
    ensures Privates(t) == Privates(s)
  {
    hide View;
  }

  /** One sequence is replaced, and the others read back the same. */
  lemma OnePrivate(s: State, t: State, c: nat, after: Option<Cache>)
    requires c < |s.caches| && t.caches == s.caches[c := after]
    requires forall d: nat :: d != c ==> View(t, d) == View(s, d)
    ensures Privates(t) == Privates(s)[c := PrivateOf(t, c)]
  {
    hide View;
  }

  lemma CreatedPrivate(s: State, t: State, call: Call)
    requires call.Create? && Callable(Privates(s), call)
    requires t.caches == s.caches + [Some(Blank(call.layers, call.heads, call.dim, call.elem, call.maxTokens))]
    requires View(t, |s.caches|) == [] && forall i :: 0 <= i < |s.caches| ==> View(t, i) == View(s, i)
    ensures Privates(t) == After(Privates(s), call)
  {
    ShareIs(if call.maxTokens == 0 then 2048 else call.maxTokens, call.layers);
    hide View, PagesFor, Share;
  }

  lemma AppendedPrivate(s: State, t: State, call: Call)
    requires call.Append? && CachesOk(s) && Callable(Privates(s), call)
    requires SlotFilled(s, t, call.c, call.ntok)
    requires View(t, call.c) == View(s, call.c) + [(call.layer % U16, call.k, call.v)]
    requires forall d: nat :: d != call.c ==> View(t, d) == View(s, d)
    ensures Privates(t) == After(Privates(s), call)
  {
    OnePrivate(s, t, call.c, t.caches[call.c]);
    hide View;
  }

  lemma ForkedPrivate(s: State, t: State, call: Call)
    requires call.Fork? && CachesOk(s) && Callable(Privates(s), call)
    requires var from := s.caches[call.src].value;
             var to := s.caches[call.dst].value;
             var want := ForkPages(call.uptoToken, from);
             && want <= |from.pages| && want <= |to.pages| && want <= |View(s, call.src)|
             && t.caches == s.caches[call.dst := Some(Forked(to, from, want, call.uptoToken))]
             && View(t, call.dst) == View(s, call.src)[..want]
    requires forall d: nat :: d != call.dst ==> View(t, d) == View(s, d)
    ensures Privates(t) == After(Privates(s), call)
  {
    ViewLength(s, call.src);
    ShareIs(call.uptoToken, s.caches[call.src].value.layers);
    OnePrivate(s, t, call.dst, t.caches[call.dst]);
    hide View, PagesFor, Share;
  }

  lemma TrimmedPrivate(s: State, t: State, call: Call)
    requires call.Trim? && CachesOk(s) && Callable(Privates(s), call)
    requires var k := s.caches[call.c].value;
             var keep := PagesFor(call.keepTokens, k.layers);
             && k.npages <= |k.pages| && |View(s, call.c)| == k.npages
             && if keep >= k.npages then t == s
                else t.caches == s.caches[call.c := Some(Trimmed(k, keep, call.keepTokens))]
                     && View(t, call.c) == View(s, call.c)[..keep]
    requires forall d: nat :: d != call.c ==> View(t, d) == View(s, d)
    ensures Privates(t) == After(Privates(s), call)
  {
    ShareIs(call.keepTokens, s.caches[call.c].value.layers);
    if t != s {
      OnePrivate(s, t, call.c, t.caches[call.c]);
    }
    hide View, PagesFor, Share;
  }

  /** Appending to the shared cache. */
  method StepAppend(kv: Kv, call: Call) returns (r: Status)
    requires kv.Valid() && RefLaw(kv.S()) && call.Append? && Ready(kv.caches, call)
    modifies kv
    ensures kv.Valid() && RefLaw(kv.S()) && old(kv.born.hashed) <= kv.born.hashed
    ensures Callable(old(Privates(kv.S())), call) && Allowed(old(Privates(kv.S())), call, r)
    ensures Apart(kv.hash, kv.born.hashed) ==> Privates(kv.S()) == Next(old(Privates(kv.S())), call, r)
  {
    hide ListsOk, CachesOk, RefLaw, Named, View, Apart, NoClash, SlotFilled, CountsAgree, LastSlot;
    ghost var s, history := kv.S(), kv.born;
    ReadyIsCallable(s, call);
    ViewLength(s, call.c);
    r := kv.Append(call.c, call.layer, call.k, call.v, call.ntok, call.memory);
    if r != Ok {
      SamePrivates(s, kv.S());
    } else if Apart(kv.hash, kv.born.hashed) {
      ApartNoClash(kv.hash, s.pages, history, old(kv.nextId), AppendPre(s, call.c, call.layer, call.k, call.v));
      AppendedPrivate(s, kv.S(), call);
    }
  }

  method StepFork(kv: Kv, call: Call) returns (r: Status)
    requires kv.Valid() && RefLaw(kv.S()) && call.Fork? && Ready(kv.caches, call)
    modifies kv
    ensures kv.Valid() && RefLaw(kv.S()) && kv.born == old(kv.born)
    ensures Callable(old(Privates(kv.S())), call) && Allowed(old(Privates(kv.S())), call, r)
    ensures Privates(kv.S()) == Next(old(Privates(kv.S())), call, r)
  {
    hide ListsOk, CachesOk, RefLaw, Named, View, Cut, Narrow, PagesFor, Share;
    ghost var s := kv.S();
    ReadyIsCallable(s, call);
    ViewLength(s, call.src);
    ViewLength(s, call.dst);
    ShareIs(call.uptoToken, s.caches[call.src].value.layers);
    r := kv.Fork(call.dst, call.src, call.uptoToken);
    if r == Ok {
      ForkedPrivate(s, kv.S(), call);
    }
  }

  method StepTrim(kv: Kv, call: Call)
    requires kv.Valid() && RefLaw(kv.S()) && call.Trim? && Ready(kv.caches, call)
    modifies kv
    ensures kv.Valid() && RefLaw(kv.S()) && kv.born == old(kv.born)
    ensures Callable(old(Privates(kv.S())), call)
    ensures Privates(kv.S()) == Next(old(Privates(kv.S())), call, Ok)
  {
    hide ListsOk, CachesOk, RefLaw, Named, View, Cut, Narrow, PagesFor, Share;
    ghost var s := kv.S();
    ReadyIsCallable(s, call);
    ViewLength(s, call.c);
    kv.Trim(call.c, call.keepTokens);
    TrimmedPrivate(s, kv.S(), call);
  }

  /** One call: refused calls change no list, and the others do what they do to private lists unless two of
      the strings hashed collide. */
  method Step(kv: Kv, call: Call) returns (r: Status)
    requires kv.Valid() && RefLaw(kv.S())
    modifies kv
    ensures kv.Valid() && RefLaw(kv.S()) && old(kv.born.hashed) <= kv.born.hashed
    ensures Allowed(old(Privates(kv.S())), call, r)
    ensures Apart(kv.hash, kv.born.hashed) ==> Privates(kv.S()) == Next(old(Privates(kv.S())), call, r)
  {
    hide ListsOk, CachesOk, RefLaw, Named, View, Apart, Privates;
    ghost var s := kv.S();
    ReadyIsCallable(s, call);
    if !Ready(kv.caches, call) {
      return Invalid;
    }
    match call
    case Create(layers, heads, dim, elem, maxTokens, memory) =>
      var c := kv.Create(layers, heads, dim, elem, maxTokens, memory);
      if layers == 0 || heads == 0 || dim == 0 {
        r := Invalid;
      } else if !memory {
        r := NoMemory;
      } else {
        CreatedPrivate(s, kv.S(), call);
        r := Ok;
      }
    case Append(_, _, _, _, _, _) =>
      r := StepAppend(kv, call);
    case Fork(_, _, _) =>
      r := StepFork(kv, call);
    case Trim(_, _) =>
      StepTrim(kv, call);
      r := Ok;
    case Destroy(c) =>
      kv.Destroy(c);
      GonePrivate(s, kv.S(), c);
      r := Ok;
    case Pressure(want) =>
      kv.PressureEvict(want);
      SamePrivates(s, kv.S());
      r := Ok;
  }

  lemma GonePrivate(s: State, t: State, c: nat)
    requires c < |s.caches| && t.caches == s.caches[c := None]
    requires forall d: nat :: d != c ==> View(t, d) == View(s, d)
    ensures Privates(t) == Privates(s)[c := None]
  {
    OnePrivate(s, t, c, None);
  }

  /** Any run of calls: the shared pages, counted, adopted, forked, trimmed and evicted, read back as private
      page lists would, and give the same answers, unless two of the strings hashed in the run collide. */
  method Run(hash: seq<byte> -> Digest, budget: nat, calls: seq<Call>) returns (kv: Kv, got: seq<Status>)
    ensures fresh(kv) && kv.hash == hash && kv.Valid() && RefLaw(kv.S()) && |got| == |calls|
    ensures Apart(hash, kv.born.hashed) ==> Privates(kv.S()) == Replay(calls, got)
    ensures Apart(hash, kv.born.hashed) ==>
              forall i :: 0 <= i < |calls| ==> Allowed(Replay(calls[..i], got[..i]), calls[i], got[i])
  {
    hide RefLaw, Privates, Allowed, Next, Apart;
    hide Kv.Valid;
    kv := new Kv(hash, budget);
    got := [];
    NoPrivates(kv.S());
    for n := 0 to |calls|
      invariant fresh(kv) && kv.hash == hash && kv.Valid() && RefLaw(kv.S()) && |got| == n
      invariant Apart(hash, kv.born.hashed) ==> Privates(kv.S()) == Replay(calls[..n], got)
      invariant Apart(hash, kv.born.hashed) ==>
                  forall i :: 0 <= i < n ==> Allowed(Replay(calls[..i], got[..i]), calls[i], got[i])
    {
      ghost var hashed := kv.born.hashed;
      var r := Step(kv, calls[n]);
      if Apart(hash, kv.born.hashed) {
        FewerApart(hash, hashed, kv.born.hashed);
      }
      assert calls[..n + 1][..n] == calls[..n] && (got + [r])[..n] == got;
      assert forall i :: 0 <= i < n ==> (got + [r])[..i] == got[..i];
      got := got + [r];
    }
    assert calls[..|calls|] == calls;
  }

  lemma NoPrivates(s: State)
    requires s.caches == []
    ensures Privates(s) == []
  {
  }

  lemma FewerApart(h: seq<byte> -> Digest, a: set<seq<byte>>, b: set<seq<byte>>)
    requires a <= b && Apart(h, b)
    ensures Apart(h, a)
  {
  }

  /** The same keys and values appended to two sequences, as five tokens and then as seven: the second
      sequence does not read back seven, because the page's digest does not cover the count. */
  method AdoptedCount(hash: seq<byte> -> Digest, k: seq<byte>, v: seq<byte>) returns (count: nat)
    requires |k| == |v| == PAGE_TOKENS
    ensures count != 7
  {
    hide ListsOk, CachesOk, RefLaw, Named, View, NoClash, Preimage, Contents, Content;
    hide Kv.Valid;
    var kv := new Kv(hash, 1_000_000);
    var a := kv.Create(1, 1, 1, 1, 16, true);
    var b := kv.Create(1, 1, 1, 1, 16, true);
    ghost var blank := Blank(1, 1, 1, 1, 16);
    assert kv.caches == [Some(blank), Some(blank)];
    assert |blank.pages| == 1 && PageBytes(blank) == PAGE_TOKENS;
    var first := kv.Append(0, 0, k, v, 5, true);
    ghost var p := LastSlot(kv.S(), 0).value;
    assert kv.pages[p].ntokens == 5;
    assert kv.caches[1] == Some(blank);
    hide Blank;
    var second := kv.Append(1, 0, k, v, 7, true);
    var c := kv.caches[1].value;
    count := kv.pages[c.pages[0].value].ntokens;
  }
}
