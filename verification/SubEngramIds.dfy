/** The names of sub-engrams, and why two of them are equal only where they should be. */
module SubEngramIds {
  import opened HierQuery

  function Digit(d: nat): (c: char)
    requires d < 10
    ensures '0' <= c <= '9' && (c - '0') as int == d
  {
    '0' + d as char
  }

  function Decimal(n: nat): (s: string)
    ensures s != []
  {
    if n < 10 then [Digit(n)] else Decimal(n / 10) + [Digit(n % 10)]
  }

  ghost predicate AllDigits(s: string)
  {
    forall i :: 0 <= i < |s| ==> '0' <= s[i] <= '9'
  }

  /** The number that a string of digits writes, leading zeros or not. */
  ghost function Number(s: string): nat
    requires AllDigits(s)
  {
    if s == [] then 0 else 10 * Number(s[..|s| - 1]) + (s[|s| - 1] - '0') as nat
  }

  lemma {:induction false} DecimalNumber(n: nat)
    ensures AllDigits(Decimal(n)) && Number(Decimal(n)) == n
  {
    if n >= 10 {
      DecimalNumber(n / 10);
      assert Decimal(n)[..|Decimal(n)| - 1] == Decimal(n / 10);
    } else {
      assert Decimal(n)[..0] == [];
    }
  }

  lemma {:induction false} DecimalLength(a: nat, b: nat)
    requires a <= b
    ensures |Decimal(a)| <= |Decimal(b)|
    decreases a
  {
    if a >= 10 {
      DecimalLength(a / 10, b / 10);
    }
  }

  /** Padded with zeros to at least four digits. */
  function Padded(n: nat): string
  {
    Zeros(4 - |Decimal(n)|) + Decimal(n)
  }

  function Zeros(n: int): string
  {
    if n <= 0 then [] else ['0'] + Zeros(n - 1)
  }

  lemma {:induction false} ZerosNumber(k: int, s: string)
    requires AllDigits(s)
    ensures AllDigits(Zeros(k) + s) && Number(Zeros(k) + s) == Number(s)
    decreases k, |s|
  {
    if k > 0 {
      ZerosNumber(k - 1, s);
      assert Zeros(k) + s == ['0'] + (Zeros(k - 1) + s);
      LeadingZero(Zeros(k - 1) + s);
    } else {
      assert Zeros(k) + s == s;
    }
  }

  lemma {:induction false} LeadingZero(s: string)
    requires AllDigits(s)
    ensures AllDigits(['0'] + s) && Number(['0'] + s) == Number(s)
  {
    if s != [] {
      var n := |s| - 1;
      LeadingZero(s[..n]);
      assert (['0'] + s)[..n + 1] == ['0'] + s[..n];
    } else {
      assert (['0'] + s)[..0] == [];
    }
  }

  lemma PaddedNumber(n: nat)
    ensures AllDigits(Padded(n)) && Number(Padded(n)) == n && Padded(n) != []
  {
    DecimalNumber(n);
    ZerosNumber(4 - |Decimal(n)|, Decimal(n));
  }

  ghost predicate Marks(m: string)
  {
    m != [] && !('0' <= m[0] <= '9') && !('0' <= m[|m| - 1] <= '9')
  }

  lemma NoLongerFront(a: string, d: string, m: string, r: string, d': string, r': string)
    requires AllDigits(d) && AllDigits(d') && Marks(m) && a + d + m + r == a + d' + m + r'
    ensures |d| >= |d'|
  {
    var s := a + d + m + r;
    assert s[|a| + |d|] == m[0];
    assert forall k :: 0 <= k < |d'| ==> s[|a| + k] == d'[k];
  }

  /** Digits end at the first other character. */
  lemma FrontDigits(a: string, d: string, m: string, r: string, d': string, r': string)
    requires AllDigits(d) && AllDigits(d') && Marks(m) && a + d + m + r == a + d' + m + r'
    ensures d == d' && r == r'
  {
    NoLongerFront(a, d, m, r, d', r');
    NoLongerFront(a, d', m, r', d, r);
    var s := a + d + m + r;
    assert s[|a|..|a| + |d|] == d && s[|a|..|a| + |d|] == d';
    assert s[|a| + |d| + |m|..] == r && s[|a| + |d| + |m|..] == r';
  }

  lemma NoLongerBack(r: string, m: string, d: string, r': string, d': string)
    requires AllDigits(d) && AllDigits(d') && Marks(m) && r + m + d == r' + m + d'
    ensures |d| >= |d'|
  {
    var s := r + m + d;
    assert |s| == |r'| + |m| + |d'|;
    assert s[|s| - |d| - 1] == m[|m| - 1];
    assert forall k :: |s| - |d'| <= k < |s| ==> s[k] == d'[k - (|s| - |d'|)];
  }

  /** They also begin after the last other character. */
  lemma BackDigits(r: string, m: string, d: string, r': string, d': string)
    requires AllDigits(d) && AllDigits(d') && Marks(m) && r + m + d == r' + m + d'
    ensures d == d' && r == r'
  {
    NoLongerBack(r, m, d, r', d');
    NoLongerBack(r', m, d', r, d);
    var s := r + m + d;
    assert s[|s| - |d|..] == d && s[|s| - |d|..] == d';
    assert s[..|r|] == r && s[..|r|] == r';
  }

  function NodeId(level: nat, prefix: string): string
  {
    "level_" + Decimal(level) + "_prefix_" + prefix
  }

  function Suffix(shard: nat): string
  {
    "__shard_" + Padded(shard)
  }

  function ShardId(id: string, shard: nat): string
  {
    id + Suffix(shard)
  }

  lemma NodeIdInjective(level: nat, prefix: string, level': nat, prefix': string)
    ensures NodeId(level, prefix) == NodeId(level', prefix') <==> level == level' && prefix == prefix'
  {
    if NodeId(level, prefix) == NodeId(level', prefix') {
      DecimalNumber(level);
      DecimalNumber(level');
      hide Number, Decimal, AllDigits;
      FrontDigits("level_", Decimal(level), "_prefix_", prefix, Decimal(level'), prefix');
    }
  }

  /** The decimal string of a number is the only one that writes it without a leading zero. */
  lemma {:induction false} DecimalUnique(s: string)
    requires AllDigits(s) && s != [] && (|s| > 1 ==> s[0] != '0')
    ensures Decimal(Number(s)) == s
  {
    var n := |s| - 1;
    var last := (s[n] - '0') as nat;
    assert Number(s) == 10 * Number(s[..n]) + last && last < 10 && Digit(last) == s[n];
    if n > 0 {
      Leading(s[..n]);
      DecimalUnique(s[..n]);
      assert Number(s) / 10 == Number(s[..n]) && Number(s) % 10 == last;
    }
  }

  lemma {:induction false} Leading(s: string)
    requires AllDigits(s) && s != [] && s[0] != '0'
    ensures Number(s) > 0
  {
    if |s| > 1 {
      Leading(s[..|s| - 1]);
    }
  }

  lemma SomeDecimals()
    ensures Decimal(0) == "0" && Decimal(7) == "7" && Decimal(12) == "12" && Decimal(12345) == "12345"
  {
    assert Decimal(1) == "1" && Decimal(12) == "1" + "2" && Decimal(123) == Decimal(12) + "3";
    assert Decimal(1234) == Decimal(123) + "4" && Decimal(12345) == Decimal(1234) + "5";
    hide Decimal;
    assert "12" + "3" == "123" && "123" + "4" == "1234" && "1234" + "5" == "12345";
  }

  lemma SomePadded()
    ensures Padded(7) == "0007" && Padded(12345) == "12345"
  {
    SomeDecimals();
    hide Decimal;
    assert Zeros(1) == ['0'] + Zeros(0) && Zeros(2) == ['0'] + Zeros(1) && Zeros(3) == ['0'] + Zeros(2);
    assert Zeros(-1) == [];
  }

  /** Some ids in full. */
  lemma ConcreteIds()
    ensures NodeId(0, "a") == "level_0_prefix_a" && NodeId(12, "a/b") == "level_12_prefix_a/b"
    ensures ShardId(NodeId(0, "a"), 7) == "level_0_prefix_a__shard_0007"
    ensures ShardId(NodeId(0, "a"), 12345) == "level_0_prefix_a__shard_12345"
  {
    SomeDecimals();
    SomePadded();
    hide Decimal, Padded;
  }

  /** A shard has the id that a prefix with its suffix would have. */
  lemma ShardIdIsNodeId(level: nat, prefix: string, shard: nat)
    ensures ShardId(NodeId(level, prefix), shard) == NodeId(level, prefix + Suffix(shard))
  {
    Regroup("level_" + Decimal(level) + "_prefix_", prefix, Suffix(shard));
  }

  lemma SuffixInjective(p: string, i: nat, q: string, j: nat)
    ensures p + Suffix(i) == q + Suffix(j) <==> p == q && i == j
  {
    if p + Suffix(i) == q + Suffix(j) {
      PaddedNumber(i);
      PaddedNumber(j);
      hide Number, Padded, AllDigits;
      Regroup(p, "__shard_", Padded(i));
      Regroup(q, "__shard_", Padded(j));
      BackDigits(p, "__shard_", Padded(i), q, Padded(j));
    }
  }

  lemma Regroup(a: string, b: string, c: string)
    ensures a + (b + c) == a + b + c
  {
  }

  /** Two shards share an id only if they are the same shard of the same node. */
  lemma ShardIdInjective(level: nat, prefix: string, shard: nat, level': nat, prefix': string, shard': nat)
    ensures ShardId(NodeId(level, prefix), shard) == ShardId(NodeId(level', prefix'), shard') <==>
      level == level' && prefix == prefix' && shard == shard'
  {
    ShardIdIsNodeId(level, prefix, shard);
    ShardIdIsNodeId(level', prefix', shard');
    NodeIdInjective(level, prefix + Suffix(shard), level', prefix' + Suffix(shard'));
    SuffixInjective(prefix, shard, prefix', shard');
  }

  /** A shard's id is that of a node exactly when the node's prefix is the shard's with its suffix. */
  lemma ShardMimicked(level: nat, prefix: string, shard: nat, level': nat, prefix': string)
    ensures ShardId(NodeId(level, prefix), shard) == NodeId(level', prefix') <==>
      level == level' && prefix' == prefix + Suffix(shard)
  {
    ShardIdIsNodeId(level, prefix, shard);
    NodeIdInjective(level, prefix + Suffix(shard), level', prefix');
  }

  /** The ids of children are longer than the id of their parent. */
  lemma LongerIds(level: nat, prefix: string, child: string, shard: nat)
    requires prefix <= child && |child| > |prefix|
    ensures |NodeId(level + 1, child)| > |NodeId(level, prefix)|
    ensures |ShardId(NodeId(level, prefix), shard)| > |NodeId(level, prefix)|
  {
    DecimalLength(level, level + 1);
  }

  /** A prefix comes before the ones that extend it. */
  lemma {:induction false} ExtensionLater(p: string, rest: string)
    requires rest != []
    ensures StringLess(p, p + rest)
  {
    if p != [] {
      ExtensionLater(p[1..], rest);
      assert (p + rest)[1..] == p[1..] + rest;
    }
  }
}
