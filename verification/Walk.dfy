/**
 The two folder walks of discovery: repositories under a parent folder (`discover`) and
 watched folders under a base (`matching_dirs`). Each drives a stack of folders still to
 read; each is proved to find exactly the paths a rule on the whole path describes.
 */
module Walk {
  import opened Prelude

  type Name = string
  type Path = seq<Name>

  /**
   A folder as a walk meets it: `plain` is not a symlink, `git` holds a `.git` entry,
   `readable` is one whose listing succeeds.
   */
  datatype Dir = Dir(name: Name, plain: bool, git: bool, readable: bool, children: seq<Dir>)

  const WALK_SKIP: set<Name> := {".git", "node_modules", "target", ".venv", "vendor"}
  const WALK_DEPTH: nat := 4

  /** What a walk asks of a folder and its path. */
  type Rule = (Dir, Path) -> bool

  // ---------------------------------------------------------------------------------------
  // What a walk should find
  // ---------------------------------------------------------------------------------------

  /** `dirs` lead down from one of `top`, and `names` are theirs. */
  ghost predicate Leads(top: seq<Dir>, dirs: seq<Dir>, names: Path) {
    && |dirs| == |names| > 0
    && dirs[0] in top
    && (forall i :: 0 <= i < |dirs| ==> dirs[i].name == names[i])
    && (forall i, j :: 0 <= i && j == i + 1 < |dirs| ==> dirs[j] in dirs[i].children)
  }

  /**
   At most `depth` levels down there is a folder that is a hit, and every folder strictly
   above it is readable and may be entered.
   */
  ghost predicate Reached(top: seq<Dir>, at: Path, depth: nat, hit: Rule, enter: Rule, dirs: seq<Dir>, names: Path) {
    && Leads(top, dirs, names)
    && |at + names| <= depth
    && hit(dirs[|dirs| - 1], at + names)
    && forall i :: 0 <= i < |dirs| - 1 ==> dirs[i].readable && enter(dirs[i], at + names[..i + 1])
  }

  ghost predicate IsHit(top: seq<Dir>, at: Path, depth: nat, hit: Rule, enter: Rule, p: Path) {
    exists dirs, names :: p == at + names && Reached(top, at, depth, hit, enter, dirs, names)
  }

  // ---------------------------------------------------------------------------------------
  // The same, folder by folder
  // ---------------------------------------------------------------------------------------

  /** What lies below a folder already entered. */
  ghost function Below(d: Dir, at: Path, depth: nat, hit: Rule, enter: Rule): set<Path>
    decreases d, 1
  {
    if d.readable then Among(d, d.children, at, depth, hit, enter) else {}
  }

  ghost function One(c: Dir, at: Path, depth: nat, hit: Rule, enter: Rule): set<Path>
    decreases c, 2
  {
    var q := at + [c.name];
    (if |q| <= depth && hit(c, q) then {q} else {})
    + (if |q| < depth && enter(c, q) then Below(c, q, depth, hit, enter) else {})
  }

  /** Over some of `d`'s children. */
  ghost function Among(d: Dir, cs: seq<Dir>, at: Path, depth: nat, hit: Rule, enter: Rule): set<Path>
    requires forall c :: c in cs ==> c in d.children
    decreases d, 0, |cs|
  {
    if cs == [] then {}
    else
      var last := cs[|cs| - 1];
      assert last in d.children && last < d;
      Among(d, cs[..|cs| - 1], at, depth, hit, enter) + One(last, at, depth, hit, enter)
  }

  lemma {:induction false} AmongMember(d: Dir, cs: seq<Dir>, at: Path, depth: nat, hit: Rule, enter: Rule, p: Path)
    requires forall c :: c in cs ==> c in d.children
    ensures p in Among(d, cs, at, depth, hit, enter)
       <==> exists c :: c in cs && p in One(c, at, depth, hit, enter)
    decreases |cs|
  {
    if cs != [] {
      AmongMember(d, cs[..|cs| - 1], at, depth, hit, enter, p);
      assert cs[|cs| - 1] in cs;
      assert cs == cs[..|cs| - 1] + [cs[|cs| - 1]];
    }
  }

  /** The first folder of a way down is taken off the top. */
  lemma ReachedTail(top: seq<Dir>, at: Path, depth: nat, hit: Rule, enter: Rule, dirs: seq<Dir>, names: Path)
    requires Reached(top, at, depth, hit, enter, dirs, names) && |dirs| > 1
    ensures Reached(dirs[0].children, at + [names[0]], depth, hit, enter, dirs[1..], names[1..])
    ensures dirs[0].readable && enter(dirs[0], at + [names[0]])
    ensures (at + [names[0]]) + names[1..] == at + names
  {
    assert names[..1] == [names[0]];
    assert (at + [names[0]]) + names[1..] == at + names;
    assert dirs[0].readable && enter(dirs[0], at + names[..0 + 1]);
    forall i | 0 <= i < |dirs[1..]| - 1
      ensures dirs[1..][i].readable && enter(dirs[1..][i], (at + [names[0]]) + names[1..][..i + 1])
    {
      assert (at + [names[0]]) + names[1..][..i + 1] == at + names[..(i + 1) + 1];
    }
  }

  lemma ReachedCons(top: seq<Dir>, at: Path, depth: nat, hit: Rule, enter: Rule, c: Dir, dirs: seq<Dir>, names: Path)
    requires c in top && c.readable && enter(c, at + [c.name])
    requires Reached(c.children, at + [c.name], depth, hit, enter, dirs, names)
    ensures Reached(top, at, depth, hit, enter, [c] + dirs, [c.name] + names)
    ensures at + ([c.name] + names) == (at + [c.name]) + names
  {
    var all, path := [c] + dirs, [c.name] + names;
    assert at + path == (at + [c.name]) + names;
    forall i | 0 <= i < |all| - 1
      ensures all[i].readable && enter(all[i], at + path[..i + 1])
    {
      if i == 0 {
        assert path[..1] == [c.name];
      } else {
        assert at + path[..i + 1] == (at + [c.name]) + names[..(i - 1) + 1];
      }
    }
  }

  lemma {:induction false} OneIsHit(top: seq<Dir>, c: Dir, at: Path, depth: nat, hit: Rule, enter: Rule, p: Path)
    requires c in top && p in One(c, at, depth, hit, enter)
    ensures IsHit(top, at, depth, hit, enter, p)
    decreases c, 2
  {
    var q := at + [c.name];
    if p in (if |q| <= depth && hit(c, q) then {q} else {}) {
      assert Reached(top, at, depth, hit, enter, [c], [c.name]);
    } else {
      assert p in Below(c, q, depth, hit, enter);
      BelowIsHit(c, q, depth, hit, enter, p);
      var dirs, names :| p == q + names && Reached(c.children, q, depth, hit, enter, dirs, names);
      ReachedCons(top, at, depth, hit, enter, c, dirs, names);
    }
  }

  lemma {:induction false} BelowIsHit(d: Dir, at: Path, depth: nat, hit: Rule, enter: Rule, p: Path)
    requires p in Below(d, at, depth, hit, enter)
    ensures d.readable && IsHit(d.children, at, depth, hit, enter, p)
    decreases d, 1
  {
    AmongMember(d, d.children, at, depth, hit, enter, p);
    var c :| c in d.children && p in One(c, at, depth, hit, enter);
    OneIsHit(d.children, c, at, depth, hit, enter, p);
  }

  lemma {:induction false} HitIsBelow(d: Dir, at: Path, depth: nat, hit: Rule, enter: Rule, dirs: seq<Dir>, names: Path)
    requires d.readable && Reached(d.children, at, depth, hit, enter, dirs, names)
    ensures at + names in Below(d, at, depth, hit, enter)
    decreases |dirs|
  {
    var c := dirs[0];
    var q := at + [c.name];
    if |dirs| == 1 {
      assert names == [c.name];
    } else {
      ReachedTail(d.children, at, depth, hit, enter, dirs, names);
      HitIsBelow(c, q, depth, hit, enter, dirs[1..], names[1..]);
    }
    assert at + names in One(c, at, depth, hit, enter);
    AmongMember(d, d.children, at, depth, hit, enter, at + names);
  }

  /** Folder by folder finds what the rule on whole paths describes. */
  lemma BelowExactly(d: Dir, at: Path, depth: nat, hit: Rule, enter: Rule, p: Path)
    ensures p in Below(d, at, depth, hit, enter)
       <==> d.readable && IsHit(d.children, at, depth, hit, enter, p)
  {
    if p in Below(d, at, depth, hit, enter) {
      BelowIsHit(d, at, depth, hit, enter, p);
    }
    if d.readable && IsHit(d.children, at, depth, hit, enter, p) {
      var dirs, names :| p == at + names && Reached(d.children, at, depth, hit, enter, dirs, names);
      HitIsBelow(d, at, depth, hit, enter, dirs, names);
    }
  }

  // ---------------------------------------------------------------------------------------
  // The stack
  // ---------------------------------------------------------------------------------------

  /** A folder still to read, the way to it, and its level. */
  datatype Entry = Entry(dir: Dir, path: Path, level: nat)

  /** What the stack will still find. */
  ghost function Pending(stack: seq<Entry>, depth: nat, hit: Rule, enter: Rule): set<Path> {
    if stack == [] then {}
    else
      var last := stack[|stack| - 1];
      Pending(stack[..|stack| - 1], depth, hit, enter) + Below(last.dir, last.path, depth, hit, enter)
  }

  /** How many folders there are, at most, to read from here. */
  ghost function Size(d: Dir): nat
    decreases d, 1
  {
    1 + SizeAmong(d, d.children)
  }

  ghost function SizeAmong(d: Dir, cs: seq<Dir>): nat
    requires forall c :: c in cs ==> c in d.children
    decreases d, 0, |cs|
  {
    if cs == [] then 0
    else
      var last := cs[|cs| - 1];
      assert last in d.children && last < d;
      SizeAmong(d, cs[..|cs| - 1]) + Size(last)
  }

  ghost function Left(stack: seq<Entry>): nat {
    if stack == [] then 0 else Left(stack[..|stack| - 1]) + Size(stack[|stack| - 1].dir)
  }

  ghost predicate Levels(stack: seq<Entry>, depth: nat) {
    forall e :: e in stack ==> e.level == |e.path| < depth
  }

  lemma Pushed(stack: seq<Entry>, e: Entry, depth: nat, hit: Rule, enter: Rule)
    ensures Pending(stack + [e], depth, hit, enter)
         == Pending(stack, depth, hit, enter) + Below(e.dir, e.path, depth, hit, enter)
    ensures Left(stack + [e]) == Left(stack) + Size(e.dir)
  {
    assert (stack + [e])[..|stack|] == stack;
  }

  /** One more child of `d` has been looked at. */
  lemma NextChild(d: Dir, i: nat, at: Path, depth: nat, hit: Rule, enter: Rule)
    requires i < |d.children|
    ensures Among(d, d.children[..i + 1], at, depth, hit, enter)
         == Among(d, d.children[..i], at, depth, hit, enter) + One(d.children[i], at, depth, hit, enter)
    ensures SizeAmong(d, d.children[..i + 1]) == SizeAmong(d, d.children[..i]) + Size(d.children[i])
  {
    assert d.children[..i + 1][..i] == d.children[..i];
  }

  /** A push that keeps the account: what is found and what is pending grow by what one child holds. */
  lemma ChildTaken(c: Dir, at: Path, depth: nat, hit: Rule, enter: Rule, rest: seq<Entry>, stack: seq<Entry>,
                   found: set<Path>, now: set<Path>)
    requires now == (if |at| + 1 <= depth && hit(c, at + [c.name]) then found + {at + [c.name]} else found)
    requires stack == if |at| + 1 < depth && enter(c, at + [c.name])
                      then rest + [Entry(c, at + [c.name], |at| + 1)] else rest
    ensures now + Pending(stack, depth, hit, enter)
         == found + Pending(rest, depth, hit, enter) + One(c, at, depth, hit, enter)
    ensures Left(stack) <= Left(rest) + Size(c)
  {
    hide Below, Pending, Left, Size;
    if |at| + 1 < depth && enter(c, at + [c.name]) {
      Pushed(rest, Entry(c, at + [c.name], |at| + 1), depth, hit, enter);
    }
  }

  /** A rule asked only of what is not skipped. */
  function Unskipped(skips: Path -> bool, rule: Rule): Rule {
    (d: Dir, q: Path) => !skips(q) && rule(d, q)
  }

  // ---------------------------------------------------------------------------------------
  // `matching_dirs`
  // ---------------------------------------------------------------------------------------

  function WatchedHit(skipped: Path -> bool, glob: Path -> bool): Rule {
    Unskipped(skipped, (d: Dir, q: Path) => d.plain && d.name !in WALK_SKIP && glob(q))
  }

  function WatchedEnter(skipped: Path -> bool): Rule {
    Unskipped(skipped, (d: Dir, q: Path) => d.plain && d.name !in WALK_SKIP)
  }

  function Clamp(n: nat, low: nat, high: nat): (c: nat)
    requires low <= high
    ensures low <= c <= high && (c == n || (c == low && n < low) || (c == high && high < n))
  {
    if n < low then low else if high < n then high else n
  }

  /** A folder to watch: one that matches, no deeper than asked, reached through folders that may be read. */
  ghost predicate Watched(base: Dir, glob: Path -> bool, reach: nat, skipped: Path -> bool, p: Path) {
    base.readable
    && IsHit(base.children, [], Clamp(reach, 1, WALK_DEPTH), WatchedHit(skipped, glob), WatchedEnter(skipped), p)
  }

  /** `r` is the canonical path of one of `paths`. */
  ghost predicate Canonical(paths: set<Path>, canon: Path -> Option<Path>, r: Path) {
    exists p :: p in paths && canon(p) == Some(r)
  }

  /** One folder of the stack: the listing is read once, child by child. */
  method ReadWatched(e: Entry, ghost paths: set<Path>, found: set<Path>, stack: seq<Entry>, depth: nat,
                     glob: Path -> bool, skipped: Path -> bool, canon: Path -> Option<Path>)
    returns (ghost paths': set<Path>, found': set<Path>, stack': seq<Entry>)
    requires Levels(stack, depth) && e.level == |e.path| < depth
    requires forall r :: r in found <==> Canonical(paths, canon, r)
    ensures Levels(stack', depth)
    ensures var hit, enter := WatchedHit(skipped, glob), WatchedEnter(skipped);
      paths' + Pending(stack', depth, hit, enter)
      == paths + Pending(stack, depth, hit, enter) + Below(e.dir, e.path, depth, hit, enter)
    ensures forall r :: r in found' <==> Canonical(paths', canon, r)
    ensures Left(stack') < Left(stack) + Size(e.dir)
  {
    hide Pending, Left, One;
    ghost var hit, enter := WatchedHit(skipped, glob), WatchedEnter(skipped);
    paths', found', stack' := paths, found, stack;
    if !e.dir.readable {
      return;
    }
    ghost var d := e.dir;
    var i := 0;
    while i < |e.dir.children|
      invariant 0 <= i <= |e.dir.children|
      invariant Levels(stack', depth)
      invariant paths' + Pending(stack', depth, hit, enter)
             == paths + Pending(stack, depth, hit, enter) + Among(d, d.children[..i], e.path, depth, hit, enter)
      invariant forall r :: r in found' <==> Canonical(paths', canon, r)
      invariant Left(stack') <= Left(stack) + SizeAmong(d, d.children[..i])
    {
      var c := e.dir.children[i];
      var q := e.path + [c.name];
      ghost var paths1, stack1 := paths', stack';
      if c.plain && c.name !in WALK_SKIP && !skipped(q) {
        if glob(q) {
          paths' := paths' + {q};
          match canon(q) {
            case Some(r) =>
              found' := found' + {r};
            case None =>
          }
        }
        if e.level + 1 < depth {
          stack' := stack' + [Entry(c, q, e.level + 1)];
        }
      }
      NextChild(d, i, e.path, depth, hit, enter);
      ChildTaken(c, e.path, depth, hit, enter, stack1, stack', paths1, paths');
      i := i + 1;
    }
    assert d.children[..i] == d.children;
  }

  /**
   Finds the canonical path of every folder to watch, and of no other.
   */
  method MatchingDirs(base: Dir, glob: Path -> bool, reach: nat, skipped: Path -> bool, canon: Path -> Option<Path>)
    returns (found: set<Path>)
    ensures forall r :: r in found <==> exists p :: canon(p) == Some(r) && Watched(base, glob, reach, skipped, p)
  {
    hide Below;
    var depth := Clamp(reach, 1, WALK_DEPTH);
    ghost var hit, enter := WatchedHit(skipped, glob), WatchedEnter(skipped);
    ghost var paths: set<Path> := {};
    found := {};
    var stack := [Entry(base, [], 0)];
    Pushed([], Entry(base, [], 0), depth, hit, enter);
    assert [] + [Entry(base, [], 0)] == stack;
    while stack != []
      invariant Levels(stack, depth)
      invariant paths + Pending(stack, depth, hit, enter) == Below(base, [], depth, hit, enter)
      invariant forall r :: r in found <==> Canonical(paths, canon, r)
      decreases Left(stack)
    {
      var e := stack[|stack| - 1];
      assert e in stack;
      paths, found, stack := ReadWatched(e, paths, found, stack[..|stack| - 1], depth, glob, skipped, canon);
    }
    forall p
      ensures p in paths <==> Watched(base, glob, reach, skipped, p)
    {
      BelowExactly(base, [], depth, hit, enter, p);
    }
  }

  // ---------------------------------------------------------------------------------------
  // `discover`, the plain-folder walk
  // ---------------------------------------------------------------------------------------

  /** A repository; below level 1 a symlink to one is not. */
  function RepoHit(skips: Path -> bool): Rule {
    Unskipped(skips, (d: Dir, q: Path) => d.git && (|q| >= 2 ==> d.plain))
  }

  /** A folder walked through: real, unskipped, no repository, and no `WALK_SKIP` name. */
  function RepoEnter(skips: Path -> bool): Rule {
    Unskipped(skips, (d: Dir, q: Path) => d.plain && !d.git && d.name !in WALK_SKIP)
  }

  ghost predicate Repository(parent: Dir, searchDepth: nat, skips: Path -> bool, p: Path) {
    parent.readable
    && IsHit(parent.children, [], Clamp(searchDepth, 1, WALK_DEPTH), RepoHit(skips), RepoEnter(skips), p)
  }

  /** The children `skip_globs` leaves, asked before anything about them is read. */
  method Kept(children: seq<Dir>, skips: Path -> bool) returns (kept: seq<Dir>)
    ensures forall c :: c in kept <==> c in children && !skips([c.name])
  {
    kept := [];
    for i := 0 to |children|
      invariant forall c :: c in kept <==> c in children[..i] && !skips([c.name])
    {
      if !skips([children[i].name]) {
        kept := kept + [children[i]];
      }
    }
    assert children[..|children|] == children;
  }

  lemma {:induction false} PendingMember(stack: seq<Entry>, depth: nat, hit: Rule, enter: Rule, p: Path)
    ensures p in Pending(stack, depth, hit, enter)
       <==> exists e :: e in stack && p in Below(e.dir, e.path, depth, hit, enter)
  {
    if stack != [] {
      PendingMember(stack[..|stack| - 1], depth, hit, enter, p);
      assert stack == stack[..|stack| - 1] + [stack[|stack| - 1]];
    }
  }

  /** Level 1 found its repositories and pushed the folders to walk: nothing else is below. */
  lemma LevelOne(parent: Dir, depth: nat, hit: Rule, enter: Rule, found: set<Path>, stack: seq<Entry>)
    requires parent.readable && depth >= 1
    requires forall p :: p in found <==> exists c :: c in parent.children && hit(c, [c.name]) && p == [c.name]
    requires forall e :: e in stack ==> e.dir in parent.children && 1 < depth && enter(e.dir, [e.dir.name])
                                        && e.path == [e.dir.name]
    requires forall c :: c in parent.children && 1 < depth && enter(c, [c.name]) ==> Entry(c, [c.name], 1) in stack
    ensures found + Pending(stack, depth, hit, enter) == Below(parent, [], depth, hit, enter)
  {
    forall p
      ensures p in found + Pending(stack, depth, hit, enter) <==> p in Below(parent, [], depth, hit, enter)
    {
      AmongMember(parent, parent.children, [], depth, hit, enter, p);
      PendingMember(stack, depth, hit, enter, p);
      assert forall c: Dir :: [] + [c.name] == [c.name];
      if c :| c in parent.children && p in One(c, [], depth, hit, enter) {
        assert p in found || p in Below(Entry(c, [c.name], 1).dir, Entry(c, [c.name], 1).path, depth, hit, enter);
      }
      if e :| e in stack && p in Below(e.dir, e.path, depth, hit, enter) {
        assert p in One(e.dir, [], depth, hit, enter);
      }
    }
  }

  method ReadForRepositories(e: Entry, found: set<Path>, stack: seq<Entry>, depth: nat, skips: Path -> bool)
    returns (found': set<Path>, stack': seq<Entry>)
    requires Levels(stack, depth) && 1 <= e.level == |e.path| < depth
    ensures Levels(stack', depth)
    ensures forall x :: x in stack' ==> x in stack || x.level > e.level
    ensures var hit, enter := RepoHit(skips), RepoEnter(skips);
      found' + Pending(stack', depth, hit, enter)
      == found + Pending(stack, depth, hit, enter) + Below(e.dir, e.path, depth, hit, enter)
    ensures Left(stack') < Left(stack) + Size(e.dir)
  {
    hide Pending, Left, One;
    ghost var hit, enter := RepoHit(skips), RepoEnter(skips);
    found', stack' := found, stack;
    if !e.dir.readable {
      return;
    }
    ghost var d := e.dir;
    var i := 0;
    while i < |e.dir.children|
      invariant 0 <= i <= |e.dir.children|
      invariant Levels(stack', depth)
      invariant forall x :: x in stack' ==> x in stack || x.level > e.level
      invariant found' + Pending(stack', depth, hit, enter)
             == found + Pending(stack, depth, hit, enter) + Among(d, d.children[..i], e.path, depth, hit, enter)
      invariant Left(stack') <= Left(stack) + SizeAmong(d, d.children[..i])
    {
      var c := e.dir.children[i];
      var q := e.path + [c.name];
      ghost var found1, stack1 := found', stack';
      if c.plain && !skips(q) {
        if c.git {
          found' := found' + {q};
        } else if c.name !in WALK_SKIP && e.level + 1 < depth {
          stack' := stack' + [Entry(c, q, e.level + 1)];
        }
      }
      NextChild(d, i, e.path, depth, hit, enter);
      ChildTaken(c, e.path, depth, hit, enter, stack1, stack', found1, found');
      i := i + 1;
    }
    assert d.children[..i] == d.children;
  }

  /**
   Finds every repository at levels 1 to N whose strict ancestors below the parent are all real,
   readable, unskipped folders that are no repository and have no `WALK_SKIP` name, and no other.
   */
  method Discover(parent: Dir, searchDepth: nat, skips: Path -> bool) returns (found: set<Path>)
    ensures forall p :: p in found <==> Repository(parent, searchDepth, skips, p)
  {
    hide Below;
    var depth := Clamp(searchDepth, 1, WALK_DEPTH);
    ghost var hit, enter := RepoHit(skips), RepoEnter(skips);
    found := {};
    if !parent.readable {
      return;
    }
    var children := Kept(parent.children, skips);
    for i := 0 to |children|
      invariant forall p :: p in found <==> exists c :: c in children[..i] && c.git && p == [c.name]
    {
      if children[i].git {
        found := found + {[children[i].name]};
      }
    }
    assert children[..|children|] == children;
    var stack: seq<Entry> := [];
    if depth >= 2 {
      for i := 0 to |children|
        invariant forall e :: e in stack ==> e.dir in children && enter(e.dir, [e.dir.name])
                                             && e.path == [e.dir.name] && e.level == 1
        invariant forall c :: c in children[..i] && enter(c, [c.name]) ==> Entry(c, [c.name], 1) in stack
      {
        var c := children[i];
        assert c in children;
        if c.plain && !c.git && c.name !in WALK_SKIP {
          stack := stack + [Entry(c, [c.name], 1)];
        }
      }
    }
    LevelOne(parent, depth, hit, enter, found, stack);
    while stack != []
      invariant Levels(stack, depth) && forall e :: e in stack ==> e.level >= 1
      invariant found + Pending(stack, depth, hit, enter) == Below(parent, [], depth, hit, enter)
      decreases Left(stack)
    {
      var e := stack[|stack| - 1];
      assert e in stack;
      found, stack := ReadForRepositories(e, found, stack[..|stack| - 1], depth, skips);
    }
    forall p
      ensures p in found <==> Repository(parent, searchDepth, skips, p)
    {
      BelowExactly(parent, [], depth, hit, enter, p);
    }
  }

  // ---------------------------------------------------------------------------------------
  // `Skip`
  // ---------------------------------------------------------------------------------------

  /** Whether a pattern matches a path, written as `dir` or as `dir/`. */
  type Glob = (Path, bool) -> bool

  /** `parents` are the configured parent dirs; `launch` is the directory the program started in. */
  datatype Skip = Skip(globs: seq<Glob>, parents: seq<Path>, launch: Path)

  predicate Matches(s: Skip, dir: Path, slash: bool) {
    exists i :: 0 <= i < |s.globs| && s.globs[i](dir, slash)
  }

  /** Some prefix of the path matches, with a slash or without. */
  predicate Named(s: Skip, rel: Path) {
    exists k :: 0 < k <= |rel| && (Matches(s, rel[..k], false) || Matches(s, rel[..k], true))
  }

  method MatchesDir(s: Skip, rel: Path) returns (yes: bool)
    ensures yes == Named(s, rel)
  {
    var soFar: Path := [];
    for i := 0 to |rel|
      invariant soFar == rel[..i]
      invariant forall k :: 0 < k <= i ==> !Matches(s, rel[..k], false) && !Matches(s, rel[..k], true)
    {
      soFar := soFar + [rel[i]];
      assert soFar == rel[..i + 1];
      if Matches(s, soFar, false) {
        return true;
      }
      if Matches(s, soFar, true) {
        return true;
      }
    }
    return false;
  }

  /** `file_under`: the first parent dir that holds the path, else its own folder. */
  function FileUnder(parents: seq<Path>, path: Path): (r: Path)
    ensures r <= path
  {
    if parents == [] then if path == [] then [] else path[..|path| - 1]
    else if parents[0] <= path then parents[0]
    else FileUnder(parents[1..], path)
  }

  predicate Protected(s: Skip, dir: Path) {
    dir <= s.launch || exists i :: 0 <= i < |s.parents| && dir <= s.parents[i]
  }

  predicate Skips(s: Skip, dir: Path) {
    !Protected(s, dir) && Named(s, dir[|FileUnder(s.parents, dir)|..])
  }

  /** `path` is filed under the first parent dir that holds it, or else in its own folder. */
  ghost predicate FiledUnder(parents: seq<Path>, path: Path, base: Path) {
    if exists i :: 0 <= i < |parents| && parents[i] <= path then
      exists i :: 0 <= i < |parents| && parents[i] == base <= path && forall j :: 0 <= j < i ==> !(parents[j] <= path)
    else base <= path && |base| == Max(0, |path| - 1)
  }

  lemma {:induction false} FileUnderExactly(parents: seq<Path>, path: Path, base: Path)
    ensures FileUnder(parents, path) == base <==> FiledUnder(parents, path, base)
  {
    if parents == [] {
      assert base <= path && |base| == Max(0, |path| - 1) ==> base == if path == [] then [] else path[..|path| - 1];
    } else if parents[0] <= path {
      assert exists i :: 0 <= i < |parents| && parents[i] <= path;
    } else {
      FileUnderExactly(parents[1..], path, base);
      FiledInRest(parents, path, base);
    }
  }

  lemma FiledInRest(parents: seq<Path>, path: Path, base: Path)
    requires parents != [] && !(parents[0] <= path)
    ensures FiledUnder(parents, path, base) <==> FiledUnder(parents[1..], path, base)
  {
    var rest := parents[1..];
    assert forall i :: 0 <= i < |rest| ==> rest[i] == parents[i + 1];
    assert forall i :: 0 < i < |parents| ==> parents[i] == rest[i - 1];
    if i :| 0 <= i < |parents| && parents[i] == base <= path && forall j :: 0 <= j < i ==> !(parents[j] <= path) {
      assert rest[i - 1] == base && forall j :: 0 <= j < i - 1 ==> !(rest[j] <= path);
    }
    if i :| 0 <= i < |rest| && rest[i] == base <= path && forall j :: 0 <= j < i ==> !(rest[j] <= path) {
      assert parents[i + 1] == base && forall j :: 0 <= j < i + 1 ==> !(parents[j] <= path);
    }
  }

  /** A pattern matches some folder from `base`, not itself, down to `dir`, with a slash or without. */
  ghost predicate MatchedBelow(s: Skip, base: Path, dir: Path) {
    exists k, i, slash ::
      |base| < k <= |dir| && 0 <= i < |s.globs| && s.globs[i](dir[|base|..k], slash)
  }

  /**
   A folder is skipped exactly when no parent dir and not the launch directory is it or lies in it,
   and a pattern matches it, or a folder above it, below the place it is filed under.
   */
  lemma SkipsExactly(s: Skip, dir: Path, base: Path)
    requires FiledUnder(s.parents, dir, base)
    ensures Skips(s, dir) <==>
      && !(dir <= s.launch) && (forall i :: 0 <= i < |s.parents| ==> !(dir <= s.parents[i]))
      && MatchedBelow(s, base, dir)
  {
    FileUnderExactly(s.parents, dir, base);
    var rel := dir[|base|..];
    assert forall k :: 0 < k <= |rel| ==> rel[..k] == dir[|base|..|base| + k];
    if MatchedBelow(s, base, dir) {
      var k, i, slash :| |base| < k <= |dir| && 0 <= i < |s.globs| && s.globs[i](dir[|base|..k], slash);
      assert rel[..k - |base|] == dir[|base|..k];
      assert Matches(s, rel[..k - |base|], slash);
    }
    if Named(s, rel) {
      var k :| 0 < k <= |rel| && (Matches(s, rel[..k], false) || Matches(s, rel[..k], true));
      assert dir[|base|..|base| + k] == rel[..k];
    }
  }

  lemma PrefixesCompare(a: Path, b: Path, q: Path)
    requires a <= q && b <= q
    ensures a <= b || b <= a
  {
    assert |a| <= |b| ==> b[..|a|] == a;
    assert |b| <= |a| ==> a[..|b|] == b;
  }

  /** Without a parent dir inside `d`, a folder below `d` is filed where `d` is. */
  lemma {:induction false} FiledTogether(parents: seq<Path>, d: Path, q: Path)
    requires d <= q
    requires forall i :: 0 <= i < |parents| ==> !(d <= parents[i])
    requires exists i :: 0 <= i < |parents| && parents[i] <= d
    ensures FileUnder(parents, q) == FileUnder(parents, d)
  {
    var first := parents[0];
    if first <= q && !(first <= d) {
      PrefixesCompare(first, d, q);
      assert false;
    }
    if !(first <= d) {
      assert forall i :: 0 <= i < |parents| - 1 ==> parents[1..][i] == parents[i + 1];
      var i :| 0 <= i < |parents| && parents[i] <= d;
      assert parents[1..][i - 1] <= d;
      FiledTogether(parents[1..], d, q);
    }
  }

  /** A pattern that drops a folder under a parent dir drops everything under it. */
  lemma SkipGoesDown(s: Skip, d: Path, q: Path)
    requires Skips(s, d) && d <= q
    requires exists i :: 0 <= i < |s.parents| && s.parents[i] <= d
    ensures Skips(s, q)
  {
    FiledTogether(s.parents, d, q);
    var n := |FileUnder(s.parents, d)|;
    var k :| 0 < k <= |d[n..]| && (Matches(s, d[n..][..k], false) || Matches(s, d[n..][..k], true));
    assert d[n..][..k] == q[n..][..k];
  }

  /**
   Where skipping goes down, asking before anything is read loses nothing: what a walk finds is
   what it would find with no skip at all, less the paths skipped.
   */
  lemma SkippingFirstIsFiltering(top: seq<Dir>, depth: nat, skips: Path -> bool, hit: Rule, enter: Rule, p: Path)
    requires forall d, q :: d <= q && skips(d) ==> skips(q)
    ensures IsHit(top, [], depth, Unskipped(skips, hit), Unskipped(skips, enter), p)
       <==> IsHit(top, [], depth, hit, enter, p) && !skips(p)
  {
    var hit', enter' := Unskipped(skips, hit), Unskipped(skips, enter);
    if IsHit(top, [], depth, hit', enter', p) {
      var dirs, names :| p == [] + names && Reached(top, [], depth, hit', enter', dirs, names);
      assert Reached(top, [], depth, hit, enter, dirs, names);
    }
    if IsHit(top, [], depth, hit, enter, p) && !skips(p) {
      var dirs, names :| p == [] + names && Reached(top, [], depth, hit, enter, dirs, names);
      forall i | 0 <= i < |dirs| - 1
        ensures enter'(dirs[i], [] + names[..i + 1])
      {
        assert [] + names[..i + 1] <= p;
      }
      assert Reached(top, [], depth, hit', enter', dirs, names);
    }
  }

  /** `discover` under a parent dir, with the patterns: the repositories it would find with none, less those skipped. */
  lemma PatternsOnlyRemove(s: Skip, base: Path, parent: Dir, searchDepth: nat, p: Path)
    requires exists i :: 0 <= i < |s.parents| && s.parents[i] <= base
    ensures var none := (q: Path) => false; var skips := (q: Path) => Skips(s, base + q);
      Repository(parent, searchDepth, skips, p)
      <==> Repository(parent, searchDepth, none, p) && !Skips(s, base + p)
  {
    var none, skips := (q: Path) => false, (q: Path) => Skips(s, base + q);
    var hit := (d: Dir, q: Path) => d.git && (|q| >= 2 ==> d.plain);
    var enter := (d: Dir, q: Path) => d.plain && !d.git && d.name !in WALK_SKIP;
    forall d, q | d <= q && skips(d)
      ensures skips(q)
    {
      var i :| 0 <= i < |s.parents| && s.parents[i] <= base;
      assert s.parents[i] <= base + d;
      SkipGoesDown(s, base + d, base + q);
    }
    var depth := Clamp(searchDepth, 1, WALK_DEPTH);
    SkippingFirstIsFiltering(parent.children, depth, skips, hit, enter, p);
    SkippingFirstIsFiltering(parent.children, depth, none, hit, enter, p);
  }
}
