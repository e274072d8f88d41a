/** Path resolution across mounts (kernel/fs/vfs.c). Directories and mounts are given by functions; nothing
    changes during a resolution, and reference counts are not modelled. */
module PathResolution {
  import opened Common

  const NAME_MAX: nat := 255

  type Vnode = nat

  /** `lookup` is each directory's own; `mounted` the root of the filesystem covering a node. `above` falls along
      chains of mounts. */
  datatype Fs = Fs(lookup: (Vnode, string) -> Option<Vnode>, isDir: Vnode -> bool, mounted: Vnode -> Option<Vnode>,
                   above: Vnode -> nat)

  datatype Result = Ok(node: Vnode) | NotDir | TooLong | NoEntry

  predicate Proper(name: string) {
    name != "" && name != "." && name != ".."
  }

  /** Mounts do not cover one another in a circle. */
  ghost predicate Stacked(fs: Fs) {
    forall v: Vnode :: fs.mounted(v).Some? ==> fs.above(fs.mounted(v).value) < fs.above(v)
  }

  /** ".." at a node found under a name is its directory, the node itself, or nothing; at the root of a
      mounted filesystem it does not lead out of it. */
  ghost predicate Rooted(fs: Fs) {
    && (forall d: Vnode, name: string :: Proper(name) && fs.lookup(d, name).Some? ==>
          fs.lookup(fs.lookup(d, name).value, "..") in {None, Some(d), fs.lookup(d, name)})
    && (forall v: Vnode :: fs.mounted(v).Some? ==> fs.lookup(fs.mounted(v).value, "..") in {None, fs.mounted(v)})
  }

  /** The node on top of those mounted on a node. */
  function Cross(fs: Fs, v: Vnode): (r: Vnode)
    requires Stacked(fs)
    ensures fs.mounted(r) == None
    ensures fs.mounted(v) == None ==> r == v
    decreases fs.above(v)
  {
    if fs.mounted(v).Some? then Cross(fs, fs.mounted(v).value) else v
  }

  /** Where a list of names leads, crossing mounts on the way. */
  function Walk(fs: Fs, from: Vnode, names: seq<string>): Option<Vnode>
    requires Stacked(fs)
    decreases |names|
  {
    if names == [] then Some(from)
    else
      match fs.lookup(from, names[0])
      case None => None
      case Some(c) => Walk(fs, Cross(fs, c), names[1..])
  }

  /** `v` is in the subtree of `top`, mounts included. */
  ghost predicate Within(fs: Fs, top: Vnode, v: Vnode)
    requires Stacked(fs)
  {
    exists names: seq<string> :: (forall n :: n in names ==> Proper(n)) && Walk(fs, top, names) == Some(v)
  }

  lemma {:induction false} WalkMore(fs: Fs, from: Vnode, names: seq<string>, name: string)
    requires Stacked(fs)
    ensures Walk(fs, from, names + [name]) ==
            match Walk(fs, from, names)
            case None => None
            case Some(d) => (match fs.lookup(d, name) case None => None case Some(c) => Some(Cross(fs, c)))
    decreases |names|
  {
    if names == [] {
      assert [] + [name] == [name];
    } else {
      assert (names + [name])[1..] == names[1..] + [name];
      match fs.lookup(from, names[0])
      case None =>
      case Some(c) => WalkMore(fs, Cross(fs, c), names[1..], name);
    }
  }

  /** A mounted root reached by crossing is some node's mount. */
  lemma {:induction false} CrossedRoot(fs: Fs, v: Vnode)
    requires Stacked(fs) && fs.mounted(v).Some?
    ensures exists w :: fs.mounted(w) == Some(Cross(fs, v))
    decreases fs.above(v)
  {
    var m := fs.mounted(v).value;
    if fs.mounted(m).Some? {
      CrossedRoot(fs, m);
    }
  }

  /** The length of the component a string starts with. */
  function Span(s: string): (n: nat)
    ensures n <= |s| && '/' !in s[..n] && (n < |s| ==> s[n] == '/')
  {
    if s == "" || s[0] == '/' then 0 else 1 + Span(s[1..])
  }

  /** The components of a path: what is between runs of slashes. */
  function Components(s: string): seq<string>
    decreases |s|
  {
    if s == "" then []
    else if s[0] == '/' then Components(s[1..])
    else [s[..Span(s)]] + Components(s[Span(s)..])
  }

  /** "." is nothing, ".." takes back the last name and stops at the top. */
  function Normalized(done: seq<string>, comps: seq<string>): seq<string>
    decreases |comps|
  {
    if comps == [] then done
    else Normalized(Applied(done, comps[0]), comps[1..])
  }

  function Applied(done: seq<string>, comp: string): seq<string> {
    if comp == "." then done
    else if comp == ".." then (if done == [] then [] else done[..|done| - 1])
    else done + [comp]
  }

  /** No mounts, and ".." always leads to the directory. */
  ghost predicate Plain(fs: Fs) {
    && (forall v: Vnode :: fs.mounted(v) == None)
    && (forall d: Vnode, name: string :: Proper(name) && fs.lookup(d, name).Some? ==>
          fs.lookup(fs.lookup(d, name).value, "..") == Some(d))
  }

  /** `cur` is where `names` lead from `top`; the depth counted is no more than how far down that is, and in a
      plain tree exactly that. */
  ghost predicate Standing(fs: Fs, top: Vnode, cur: Vnode, depth: nat, names: seq<string>)
    requires Stacked(fs)
  {
    && fs.mounted(top) == None && fs.mounted(cur) == None
    && (forall n :: n in names ==> Proper(n)) && Walk(fs, top, names) == Some(cur)
    && depth <= |names| && (Plain(fs) ==> depth == |names|)
  }

  /** A step down. */
  lemma Down(fs: Fs, top: Vnode, cur: Vnode, depth: nat, names: seq<string>, name: string)
    requires Stacked(fs) && Standing(fs, top, cur, depth, names) && Proper(name) && fs.lookup(cur, name).Some?
    ensures Standing(fs, top, Cross(fs, fs.lookup(cur, name).value), depth + 1, names + [name])
  {
    WalkMore(fs, top, names, name);
  }

  /** A step up, which is never above the top: the counted depth is positive, so there is a name to take back. */
  lemma Up(fs: Fs, top: Vnode, cur: Vnode, depth: nat, names: seq<string>) returns (names': seq<string>)
    requires Stacked(fs) && Rooted(fs) && Standing(fs, top, cur, depth, names) && depth > 0
    ensures names' == names || names' == names[..|names| - 1]
    ensures Plain(fs) ==> names' == names[..|names| - 1]
    ensures var p := fs.lookup(cur, "..");
            Standing(fs, top, if p.Some? then Cross(fs, p.value) else cur, depth - 1, names')
  {
    var front, name := names[..|names| - 1], names[|names| - 1];
    assert names == front + [name];
    WalkMore(fs, top, front, name);
    var d := Walk(fs, top, front).value;
    var c := fs.lookup(d, name).value;
    Uncovered(fs, top, front);
    assert Proper(name);
    if fs.mounted(c).Some? {
      CrossedRoot(fs, c);
      names' := names;
    } else {
      names' := if fs.lookup(cur, "..") == Some(d) && d != cur then front else names;
      if Plain(fs) {
        names' := front;
      }
    }
  }

  lemma {:induction false} Uncovered(fs: Fs, from: Vnode, names: seq<string>)
    requires Stacked(fs) && fs.mounted(from) == None
    ensures Walk(fs, from, names).Some? ==> fs.mounted(Walk(fs, from, names).value) == None
    decreases |names|
  {
    if names != [] && fs.lookup(from, names[0]).Some? {
      Uncovered(fs, Cross(fs, fs.lookup(from, names[0]).value), names[1..]);
    }
  }

  /** The result at `cur`, `depth` steps down, with these components to go. */
  function Follow(fs: Fs, cur: Vnode, depth: nat, comps: seq<string>): Result
    requires Stacked(fs)
    decreases |comps|
  {
    if comps == [] then Ok(cur)
    else if comps[0] == "." then Follow(fs, cur, depth, comps[1..])
    else if comps[0] == ".." then
      if depth == 0 then Follow(fs, cur, depth, comps[1..])
      else
        match fs.lookup(cur, "..")
        case None => Follow(fs, cur, depth - 1, comps[1..])
        case Some(parent) => Follow(fs, Cross(fs, parent), depth - 1, comps[1..])
    else if !fs.isDir(cur) then NotDir
    else if |comps[0]| > NAME_MAX then TooLong
    else
      match fs.lookup(cur, comps[0])
      case None => NoEntry
      case Some(child) => Follow(fs, Cross(fs, child), depth + 1, comps[1..])
  }

  /** The root for an absolute path or without a base. */
  function Begin(root: Option<Vnode>, base: Option<Vnode>, path: string): Option<Vnode> {
    if Absolute(path) || base == None then root else base
  }

  predicate Absolute(path: string) {
    path != "" && path[0] == '/'
  }

  /** What resolving a path gives. */
  function Resolved(fs: Fs, root: Option<Vnode>, base: Option<Vnode>, path: string): Result
    requires Stacked(fs)
  {
    match Begin(root, base, path)
    case None => NoEntry
    case Some(first) => Follow(fs, Cross(fs, first), 0, Components(path))
  }

  lemma {:induction false} ComponentsNotEmpty(s: string)
    ensures forall i :: 0 <= i < |Components(s)| ==> Components(s)[i] != ""
    decreases |s|
  {
    if s != "" {
      if s[0] == '/' {
        ComponentsNotEmpty(s[1..]);
      } else {
        ComponentsNotEmpty(s[Span(s)..]);
      }
    }
  }

  /** The node found is in the subtree of the top, and in a plain tree it is where the normalised names lead. */
  lemma {:induction false} FollowStays(fs: Fs, top: Vnode, cur: Vnode, depth: nat, names: seq<string>,
        comps: seq<string>)
    requires Stacked(fs) && Rooted(fs) && Standing(fs, top, cur, depth, names)
    requires forall i :: 0 <= i < |comps| ==> comps[i] != ""
    ensures var r := Follow(fs, cur, depth, comps);
            r.Ok? ==> Within(fs, top, r.node) && (Plain(fs) ==> Walk(fs, top, Normalized(names, comps)) == Some(r.node))
    decreases |comps|
  {
    hide Rooted, Stacked, Plain;
    if comps == [] {
      Arrived(fs, top, cur, depth, names);
      hide Within, Standing;
    } else {
      hide Within, Standing;
      var rest := comps[1..];
      if comps[0] == "." {
        FollowStays(fs, top, cur, depth, names, rest);
      } else if comps[0] == ".." && depth == 0 {
        AtTop(fs, top, cur, names);
        FollowStays(fs, top, cur, 0, names, rest);
      } else if comps[0] == ".." {
        Taken(fs, top, cur, depth, names);
        var names' := Up(fs, top, cur, depth, names);
        var parent := fs.lookup(cur, "..");
        FollowStays(fs, top, if parent.Some? then Cross(fs, parent.value) else cur, depth - 1, names', rest);
      } else if fs.isDir(cur) && |comps[0]| <= NAME_MAX && fs.lookup(cur, comps[0]).Some? {
        Down(fs, top, cur, depth, names, comps[0]);
        FollowStays(fs, top, Cross(fs, fs.lookup(cur, comps[0]).value), depth + 1, names + [comps[0]], rest);
      }
    }
  }

  /** In a plain tree every proper component names something in the directory the components before it
      lead to, with a name that is not too long. */
  ghost predicate AllThere(fs: Fs, top: Vnode, names: seq<string>, comps: seq<string>)
    requires Stacked(fs)
  {
    forall i :: 0 <= i < |comps| && Proper(comps[i]) ==>
      There(fs, Walk(fs, top, Normalized(names, comps[..i])), comps[i])
  }

  ghost predicate There(fs: Fs, d: Option<Vnode>, name: string) {
    d.Some? && fs.isDir(d.value) && |name| <= NAME_MAX && fs.lookup(d.value, name).Some?
  }

  lemma AllThereNext(fs: Fs, top: Vnode, names: seq<string>, comps: seq<string>)
    requires Stacked(fs) && comps != []
    ensures AllThere(fs, top, names, comps) <==>
            (Proper(comps[0]) ==> There(fs, Walk(fs, top, names), comps[0]))
            && AllThere(fs, top, Applied(names, comps[0]), comps[1..])
  {
    var rest, names' := comps[1..], Applied(names, comps[0]);
    assert comps[..0] == [];
    forall i | 0 <= i < |rest|
      ensures Normalized(names', rest[..i]) == Normalized(names, comps[..i + 1])
    {
      assert comps[..i + 1][1..] == rest[..i];
    }
    if AllThere(fs, top, names, comps) {
      forall i | 0 <= i < |rest| && Proper(rest[i])
        ensures There(fs, Walk(fs, top, Normalized(names', rest[..i])), rest[i])
      {
        assert rest[i] == comps[i + 1];
      }
    }
    if (Proper(comps[0]) ==> There(fs, Walk(fs, top, names), comps[0])) && AllThere(fs, top, names', rest) {
      forall i | 0 <= i < |comps| && Proper(comps[i])
        ensures There(fs, Walk(fs, top, Normalized(names, comps[..i])), comps[i])
      {
        if i > 0 {
          assert comps[i] == rest[i - 1];
          assert Normalized(names', rest[..i - 1]) == Normalized(names, comps[..i]);
        }
      }
    }
  }

  /** In a plain tree a resolution succeeds exactly when all components are there. */
  lemma {:induction false} FollowSucceeds(fs: Fs, top: Vnode, cur: Vnode, names: seq<string>, comps: seq<string>)
    requires Stacked(fs) && Plain(fs) && Rooted(fs) && Standing(fs, top, cur, |names|, names)
    requires forall i :: 0 <= i < |comps| ==> comps[i] != ""
    ensures Follow(fs, cur, |names|, comps).Ok? <==> AllThere(fs, top, names, comps)
    decreases |comps|
  {
    hide Rooted, Stacked, AllThere;
    if comps == [] {
      NoneMissing(fs, top, names);
    } else {
      var rest := comps[1..];
      AllThereNext(fs, top, names, comps);
      if comps[0] == "." || (comps[0] == ".." && names == []) {
        FollowSucceeds(fs, top, cur, names, rest);
      } else if comps[0] == ".." {
        var names' := Up(fs, top, cur, |names|, names);
        var parent := fs.lookup(cur, "..");
        FollowSucceeds(fs, top, if parent.Some? then Cross(fs, parent.value) else cur, names', rest);
      } else if There(fs, Some(cur), comps[0]) {
        Down(fs, top, cur, |names|, names, comps[0]);
        FollowSucceeds(fs, top, Cross(fs, fs.lookup(cur, comps[0]).value), names + [comps[0]], rest);
      }
    }
  }

  /** Component `i` is the first proper one that is not there. */
  ghost predicate MissingFirst(fs: Fs, top: Vnode, names: seq<string>, comps: seq<string>, i: int)
    requires Stacked(fs)
  {
    && 0 <= i < |comps| && Proper(comps[i])
    && !There(fs, Walk(fs, top, Normalized(names, comps[..i])), comps[i])
    && forall j :: 0 <= j < i && Proper(comps[j]) ==>
         There(fs, Walk(fs, top, Normalized(names, comps[..j])), comps[j])
  }

  /** What is wrong with it: what the names before lead to is no directory, or it is too long, or there is none. */
  ghost function Complaint(fs: Fs, top: Vnode, names: seq<string>, comps: seq<string>, i: int): Result
    requires Stacked(fs) && 0 <= i < |comps|
  {
    match Walk(fs, top, Normalized(names, comps[..i]))
    case None => Ok(top)
    case Some(d) => if !fs.isDir(d) then NotDir else if |comps[i]| > 255 then TooLong else NoEntry
  }

  lemma MissingNext(fs: Fs, top: Vnode, names: seq<string>, comps: seq<string>, i: int)
    requires Stacked(fs) && MissingFirst(fs, top, names, comps, i) && i > 0
    ensures MissingFirst(fs, top, Applied(names, comps[0]), comps[1..], i - 1)
    ensures Complaint(fs, top, names, comps, i) == Complaint(fs, top, Applied(names, comps[0]), comps[1..], i - 1)
    ensures Proper(comps[0]) ==> There(fs, Walk(fs, top, names), comps[0])
  {
    var rest, names' := comps[1..], Applied(names, comps[0]);
    assert comps[..0] == [];
    forall j | 0 <= j < |rest|
      ensures Normalized(names', rest[..j]) == Normalized(names, comps[..j + 1])
    {
      assert comps[..j + 1][1..] == rest[..j];
    }
    forall j | 0 <= j < i - 1 && Proper(rest[j])
      ensures There(fs, Walk(fs, top, Normalized(names', rest[..j])), rest[j])
    {
      assert rest[j] == comps[j + 1];
    }
    assert Proper(comps[0]) ==> There(fs, Walk(fs, top, Normalized(names, comps[..0])), comps[0]);
  }

  /** In a plain tree a resolution that fails says what is wrong with the first component that is not there. */
  lemma {:induction false} FollowFails(fs: Fs, top: Vnode, cur: Vnode, names: seq<string>, comps: seq<string>, i: int)
    requires Stacked(fs) && Plain(fs) && Rooted(fs) && Standing(fs, top, cur, |names|, names)
    requires forall i :: 0 <= i < |comps| ==> comps[i] != ""
    requires 0 <= i < |comps| && MissingFirst(fs, top, names, comps, i)
    ensures Follow(fs, cur, |names|, comps) == Complaint(fs, top, names, comps, i)
    decreases |comps|
  {
    hide Rooted, Stacked, Plain;
    Arrived(fs, top, cur, |names|, names);
    hide Within, Standing;
    if i == 0 {
      assert comps[..0] == [];
    } else {
      MissingNext(fs, top, names, comps, i);
      hide MissingFirst, Complaint;
      var rest := comps[1..];
      if comps[0] == "." || (comps[0] == ".." && names == []) {
        FollowFails(fs, top, cur, names, rest, i - 1);
      } else if comps[0] == ".." {
        var names' := Up(fs, top, cur, |names|, names);
        var parent := fs.lookup(cur, "..");
        FollowFails(fs, top, if parent.Some? then Cross(fs, parent.value) else cur, names', rest, i - 1);
      } else {
        Down(fs, top, cur, |names|, names, comps[0]);
        FollowFails(fs, top, Cross(fs, fs.lookup(cur, comps[0]).value), names + [comps[0]], rest, i - 1);
      }
    }
  }

  lemma NoneMissing(fs: Fs, top: Vnode, names: seq<string>)
    requires Stacked(fs)
    ensures AllThere(fs, top, names, [])
  {
  }

  /** Skip separators and span the next component. */
  method NextComponent(path: string, from: nat) returns (start: nat, end: nat)
    requires from <= |path|
    ensures from <= start <= end <= |path|
    ensures Components(path[from..]) == if start == end then [] else [path[start..end]] + Components(path[end..])
    ensures start < end || end == |path|
  {
    start := from;
    while start < |path| && path[start] == '/'
      invariant from <= start <= |path| && Components(path[from..]) == Components(path[start..])
    {
      assert path[start..][1..] == path[start + 1..];
      start := start + 1;
    }
    end := start;
    while end < |path| && path[end] != '/'
      invariant start <= end <= |path| && Span(path[start..]) == end - start + Span(path[end..])
    {
      assert path[end..][1..] == path[end + 1..];
      end := end + 1;
    }
    assert path[start..][..end - start] == path[start..end] && path[start..][end - start..] == path[end..];
  }

  /** One component that is not ".": the error, or the node and depth it leads to. */
  method Enter(fs: Fs, cur: Vnode, depth: nat, name: string) returns (err: Option<Result>, node: Vnode, down: nat)
    requires Stacked(fs) && name != "."
    ensures forall rest :: Follow(fs, cur, depth, [name] + rest) ==
              if err.Some? then err.value else Follow(fs, node, down, rest)
  {
    err, node, down := None, cur, depth;
    assert forall rest: seq<string> :: ([name] + rest)[1..] == rest;
    if name == ".." {
      if depth == 0 {
        return;
      }
      down := depth - 1;
      var parent := fs.lookup(cur, "..");
      if parent.Some? {
        node := Cross(fs, parent.value);
      }
      return;
    }
    if !fs.isDir(cur) {
      return Some(NotDir), cur, depth;
    }
    if |name| > NAME_MAX {
      return Some(TooLong), cur, depth;
    }
    var child := fs.lookup(cur, name);
    if child == None {
      return Some(NoEntry), cur, depth;
    }
    node, down := Cross(fs, child.value), depth + 1;
  }

  /** The code follows the components. Whatever the path, the node found is inside the subtree of the node the
      resolution starts from, mounts included; in a plain tree it is the one the normalised names lead to, and
      there is one exactly when every component is there. */
  method Resolve(fs: Fs, root: Option<Vnode>, base: Option<Vnode>, path: string) returns (r: Result)
    requires Stacked(fs) && Rooted(fs)
    ensures r == Resolved(fs, root, base, path)
    ensures Begin(root, base, path) == if base == None || (path != "" && path[0] == '/') then root else base
    ensures r.Ok? ==> Begin(root, base, path).Some? && Within(fs, Cross(fs, Begin(root, base, path).value), r.node)
    ensures r.Ok? && Plain(fs) ==>
              Walk(fs, Cross(fs, Begin(root, base, path).value), Normalized([], Components(path))) == Some(r.node)
    ensures Plain(fs) && Begin(root, base, path).Some? ==>
              (r.Ok? <==> AllThere(fs, Cross(fs, Begin(root, base, path).value), [], Components(path)))
    ensures Plain(fs) && Begin(root, base, path).Some? ==>
              forall i :: MissingFirst(fs, Cross(fs, Begin(root, base, path).value), [], Components(path), i) ==>
                r == Complaint(fs, Cross(fs, Begin(root, base, path).value), [], Components(path), i)
  {
    hide Rooted, Stacked, Plain, Within, AllThere, Normalized, MissingFirst, Complaint;
    var first := Begin(root, base, path);
    if first == None {
      return NoEntry;
    }
    var cur, depth: nat, p: nat := Cross(fs, first.value), 0, 0;
    ResolvedFacts(fs, cur, path);
    ghost var all := Follow(fs, cur, 0, Components(path));
    assert path[0..] == path;
    while true
      invariant p <= |path| && all == Follow(fs, cur, depth, Components(path[p..]))
      decreases |path| - p
    {
      var start, end := NextComponent(path, p);
      if start == end {
        break;
      }
      var name := path[start..end];
      assert ([name] + Components(path[end..]))[1..] == Components(path[end..]);
      p := end;
      if name == "." {
        continue;
      }
      var err, node, down := Enter(fs, cur, depth, name);
      if err.Some? {
        return err.value;
      }
      cur, depth := node, down;
    }
    r := Ok(cur);
  }

  lemma ResolvedFacts(fs: Fs, top: Vnode, path: string)
    requires Stacked(fs) && Rooted(fs) && fs.mounted(top) == None
    ensures var r := Follow(fs, top, 0, Components(path));
            && (r.Ok? ==> Within(fs, top, r.node))
            && (r.Ok? && Plain(fs) ==> Walk(fs, top, Normalized([], Components(path))) == Some(r.node))
            && (Plain(fs) ==> (r.Ok? <==> AllThere(fs, top, [], Components(path))))
            && (Plain(fs) ==> forall i :: MissingFirst(fs, top, [], Components(path), i) ==>
                  r == Complaint(fs, top, [], Components(path), i))
  {
    ComponentsNotEmpty(path);
    assert Standing(fs, top, top, 0, []);
    FollowStays(fs, top, top, 0, [], Components(path));
    if Plain(fs) {
      FollowSucceeds(fs, top, top, [], Components(path));
      forall i | MissingFirst(fs, top, [], Components(path), i)
        ensures Follow(fs, top, 0, Components(path)) == Complaint(fs, top, [], Components(path), i)
      {
        FollowFails(fs, top, top, [], Components(path), i);
      }
    }
  }

  // ---- a base directory as a boundary

  /** Resolving the path from the base finds nothing outside the base's subtree. */
  ghost predicate Stays(fs: Fs, root: Vnode, base: Vnode, path: string)
    requires Stacked(fs)
  {
    var r := Resolved(fs, Some(root), Some(base), path);
    r.Ok? ==> Within(fs, Cross(fs, base), r.node)
  }

  /** A base directory is a boundary for a path, in every filesystem, exactly when the path does not begin with
      a slash (or could not be resolved anyway, with a component that is too long). */
  lemma Boundary(path: string)
    ensures (forall fs, root, base :: Stacked(fs) && Rooted(fs) ==> Stays(fs, root, base, path)) <==>
            !(path != "" && path[0] == '/') || exists c :: c in Components(path) && Proper(c) && |c| > NAME_MAX
  {
    ComponentsNotEmpty(path);
    if Absolute(path) && forall c :: c in Components(path) && Proper(c) ==> |c| <= NAME_MAX {
      var fs := Loops();
      LoopsFollow(0, 0, Components(path));
      forall names: seq<string>
        ensures Walk(fs, 1, names) == Some(1)
      {
        LoopsWalk(1, names);
      }
      assert !Stays(fs, 0, 1, path);
    } else {
      forall fs, root, base | Stacked(fs) && Rooted(fs)
        ensures Stays(fs, root, base, path)
      {
        if Absolute(path) {
          var c :| c in Components(path) && Proper(c) && |c| > NAME_MAX;
          TooLongFails(fs, Cross(fs, root), 0, Components(path), c);
        } else {
          ResolvedFacts(fs, Cross(fs, base), path);
        }
      }
    }
  }

  /** Every name leads back to the directory it is looked up in. */
  function Loops(): (fs: Fs)
    ensures Stacked(fs) && Rooted(fs)
  {
    Fs((d: Vnode, name: string) => Some(d), (d: Vnode) => true, (d: Vnode) => None, (d: Vnode) => 0)
  }

  lemma {:induction false} LoopsFollow(cur: Vnode, depth: nat, comps: seq<string>)
    requires forall c :: c in comps && Proper(c) ==> |c| <= NAME_MAX
    requires forall i :: 0 <= i < |comps| ==> comps[i] != ""
    ensures Follow(Loops(), cur, depth, comps) == Ok(cur)
    decreases |comps|
  {
    if comps != [] {
      assert comps[0] in comps && forall c :: c in comps[1..] ==> c in comps;
      var up := if depth == 0 then 0 else depth - 1;
      LoopsFollow(cur, if comps[0] == "." then depth else if comps[0] == ".." then up else depth + 1, comps[1..]);
    }
  }

  lemma {:induction false} LoopsWalk(from: Vnode, names: seq<string>)
    ensures Walk(Loops(), from, names) == Some(from)
    decreases |names|
  {
    if names != [] {
      LoopsWalk(from, names[1..]);
    }
  }

  lemma {:induction false} TooLongFails(fs: Fs, cur: Vnode, depth: nat, comps: seq<string>, c: string)
    requires Stacked(fs) && c in comps && Proper(c) && |c| > NAME_MAX
    ensures !Follow(fs, cur, depth, comps).Ok?
    decreases |comps|
  {
    if comps[0] != c {
      assert c in comps[1..];
      var rest := comps[1..];
      if comps[0] == "." || (comps[0] == ".." && depth == 0) {
        TooLongFails(fs, cur, depth, rest, c);
      } else if comps[0] == ".." {
        var parent := fs.lookup(cur, "..");
        TooLongFails(fs, if parent.Some? then Cross(fs, parent.value) else cur, depth - 1, rest, c);
      } else if fs.lookup(cur, comps[0]).Some? {
        TooLongFails(fs, Cross(fs, fs.lookup(cur, comps[0]).value), depth + 1, rest, c);
      }
    }
  }

  lemma AtTop(fs: Fs, top: Vnode, cur: Vnode, names: seq<string>)
    requires Stacked(fs) && Standing(fs, top, cur, 0, names)
    ensures Plain(fs) ==> names == []
  {
  }

  lemma Taken(fs: Fs, top: Vnode, cur: Vnode, depth: nat, names: seq<string>)
    requires Stacked(fs) && Standing(fs, top, cur, depth, names) && depth > 0
    ensures names != []
  {
  }

  lemma Arrived(fs: Fs, top: Vnode, cur: Vnode, depth: nat, names: seq<string>)
    requires Stacked(fs) && Standing(fs, top, cur, depth, names)
    ensures Within(fs, top, cur) && Walk(fs, top, names) == Some(cur)
  {
  }
}
