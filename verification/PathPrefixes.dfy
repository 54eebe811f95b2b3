/** Paths split at their slashes, and the prefixes that the levels of the hierarchy are made of. */
module PathPrefixes {

  function Split(path: string): (comps: seq<string>)
    ensures comps != []
  {
    if path == [] then [[]]
    else
      var rest := Split(path[1..]);
      if path[0] == '/' then [[]] + rest else [[path[0]] + rest[0]] + rest[1..]
  }

  function Join(comps: seq<string>): string
    requires comps != []
  {
    var n := |comps| - 1;
    if n == 0 then comps[0] else Join(comps[..n]) + "/" + comps[n]
  }

  function Depth(path: string): (n: nat)
    ensures n > 0
  {
    |Split(path)|
  }

  function Prefix(path: string, level: nat): string
    requires level < Depth(path)
  {
    Join(Split(path)[..level + 1])
  }

  lemma NextPrefix(path: string, level: nat)
    requires level + 1 < Depth(path)
    ensures Prefix(path, level) < Prefix(path, level + 1)
  {
    assert Split(path)[..level + 2][..level + 1] == Split(path)[..level + 1];
  }

  /** Joining does not care which end it starts from. */
  lemma {:induction false} JoinFront(first: string, rest: seq<string>)
    requires rest != []
    ensures Join([first] + rest) == first + "/" + Join(rest)
  {
    var all, n := [first] + rest, |rest|;
    assert all[..n] == [first] + rest[..n - 1];
    if n > 1 {
      JoinFront(first, rest[..n - 1]);
    } else {
      assert Join([first]) == first && rest == [rest[0]];
    }
  }

  lemma JoinLast(front: seq<string>, rest: seq<string>)
    requires front != [] && rest != []
    ensures Join(front + rest) == Join(front + rest[..|rest| - 1]) + "/" + rest[|rest| - 1]
  {
    assert (front + rest)[..|front + rest| - 1] == front + rest[..|rest| - 1];
  }

  lemma {:induction false} JoinGrows(c: char, first: string, rest: seq<string>)
    ensures Join([[c] + first] + rest) == [c] + Join([first] + rest)
  {
    var n := |rest|;
    if n > 0 {
      JoinGrows(c, first, rest[..n - 1]);
      JoinLast([[c] + first], rest);
      JoinLast([first], rest);
      hide Join;
      var before := Join([first] + rest[..n - 1]);
      assert ([c] + before) + "/" + rest[n - 1] == [c] + (before + "/" + rest[n - 1]);
    }
  }

  lemma Counted(c: char, rest: string)
    ensures multiset([c] + rest)['/'] == multiset(rest)['/'] + if c == '/' then 1 else 0
  {
    assert multiset([c] + rest) == multiset([c]) + multiset(rest);
  }

  lemma NoSlash(c: char, rest: seq<string>)
    requires c != '/' && rest != [] && forall comp :: comp in rest ==> '/' !in comp
    ensures forall comp :: comp in [[c] + rest[0]] + rest[1..] ==> '/' !in comp
  {
    assert '/' !in rest[0];
  }

  /** The parts hold no slash and, with one slash between any two, make up the path: one part more than slashes. */
  lemma {:induction false} SplitSpec(path: string)
    ensures Join(Split(path)) == path
    ensures forall comp :: comp in Split(path) ==> '/' !in comp
    ensures |Split(path)| == multiset(path)['/'] + 1
  {
    if path != [] {
      var c, t := path[0], path[1..];
      var rest := Split(t);
      assert path == [c] + t;
      SplitSpec(t);
      Counted(c, t);
      hide Join;
      assert Split(path) == if c == '/' then [[]] + rest else [[c] + rest[0]] + rest[1..];
      hide Split;
      if c == '/' {
        JoinFront([], rest);
      } else {
        JoinGrows(c, rest[0], rest[1..]);
        assert rest == [rest[0]] + rest[1..];
        NoSlash(c, rest);
      }
    }
  }

  lemma {:induction false} SplitFront(first: string, t: string)
    requires '/' !in first
    ensures Split(first) == [first] && Split(first + "/" + t) == [first] + Split(t)
  {
    if first == [] {
      assert "/" + t == ['/'] + t;
      assert first + "/" + t == "/" + t && ("/" + t)[1..] == t;
    } else {
      SplitFront(first[1..], t);
      assert [first[0]] + first[1..] == first && [first[1..]][1..] == [];
      assert ([first[1..]] + Split(t))[1..] == Split(t);
      assert (first + "/" + t)[1..] == first[1..] + "/" + t;
    }
  }

  /** Splitting is the only way to cut a path into slashless parts that make it up again. */
  lemma {:induction false} SplitUnique(comps: seq<string>)
    requires comps != [] && forall comp :: comp in comps ==> '/' !in comp
    ensures Split(Join(comps)) == comps
  {
    if |comps| == 1 {
      SplitFront(comps[0], []);
    } else {
      var rest := comps[1..];
      assert comps == [comps[0]] + rest;
      JoinFront(comps[0], rest);
      SplitUnique(rest);
      hide Join, Split;
      SplitFront(comps[0], Join(rest));
    }
  }

  /** `p` is all of the path, or the part of it before a slash, and has `level` slashes inside. */
  predicate Cut(path: string, level: nat, p: string)
  {
    p <= path && (p == path || path[|p|] == '/') && multiset(p)['/'] == level
  }

  lemma EmptyCut(path: string, level: nat)
    ensures Cut(path, level, []) <==> level == 0 && (path == [] || path[0] == '/')
  {
  }

  lemma CutNext(c: char, t: string, level: nat, q: string)
    ensures c == '/' ==> (Cut([c] + t, level, [c] + q) <==> level > 0 && Cut(t, level - 1, q))
    ensures c != '/' ==> (Cut([c] + t, level, [c] + q) <==> Cut(t, level, q))
  {
    Counted(c, q);
    assert [c] + q <= [c] + t <==> q <= t by {
      assert ([c] + t)[1..] == t && ([c] + q)[1..] == q;
    }
  }

  /** The prefix of every level of a path that starts with this character. */
  lemma PrefixNext(c: char, t: string, level: nat)
    ensures Depth([c] + t) == Depth(t) + if c == '/' then 1 else 0
    ensures c == '/' ==> Prefix([c] + t, 0) == []
    ensures c == '/' && level < Depth(t) ==> Prefix([c] + t, level + 1) == [c] + Prefix(t, level)
    ensures c != '/' && level < Depth(t) ==> Prefix([c] + t, level) == [c] + Prefix(t, level)
  {
    var path, rest := [c] + t, Split(t);
    assert path[0] == c && path[1..] == t;
    if c == '/' {
      assert Split(path)[..1] == [[]];
      if level < Depth(t) {
        JoinFront([], rest[..level + 1]);
        assert Split(path)[..level + 2] == [[]] + rest[..level + 1];
      }
    } else if level < Depth(t) {
      JoinGrows(c, rest[0], rest[1..level + 1]);
      assert Split(path)[..level + 1] == [[c] + rest[0]] + rest[1..level + 1];
      assert rest[..level + 1] == [rest[0]] + rest[1..level + 1];
    }
  }

  /** The prefix of a level is the only part of the path, ending at its end or before a slash, with `level` slashes inside. */
  lemma {:induction false} PrefixIsCut(path: string, level: nat, p: string)
    ensures level < Depth(path) && Prefix(path, level) == p <==> Cut(path, level, p)
    decreases |path|
  {
    if path == [] {
      assert Split(path)[..1] == [[]];
    } else {
      var c, t := path[0], path[1..];
      assert path == [c] + t;
      hide *;
      EmptyCut(path, level);
      var l := if c == '/' && level > 0 then level - 1 else level;
      PrefixNext(c, t, level);
      PrefixNext(c, t, l);
      if p == [] {
      } else if p[0] == c {
        var q := p[1..];
        assert p == [c] + q;
        CutNext(c, t, level, q);
        PrefixIsCut(t, l, q);
      } else {
        OtherStart(path, level, p);
      }
    }
  }

  lemma OtherStart(path: string, level: nat, p: string)
    requires p != [] && path != [] && p[0] != path[0]
    ensures !Cut(path, level, p)
  {
  }
}
