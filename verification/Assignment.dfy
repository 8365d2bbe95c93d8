/**
 The group leader's assignment of partitions to members: every (topic, partition) is packed into
 one string, dealt round-robin, and unpacked per member.
 */
module Assignment {
  import opened Bytes
  import opened Decimal

  datatype Pair = Pair(topic: string, partition: int32)

  type Grouped = map<string, seq<int32>>

  datatype MemberAssignment = MemberAssignment(memberId: string, topicPartitions: Grouped)

  const NUL: char := 0 as char

  // ------------------------------------------------------------ packing

  function Packed(p: Pair): string { p.topic + [NUL] + Printed(p.partition) }

  function Unpacked(s: string): Pair
  {
    if NUL !in s then Pair(s, 0) else
    var i := FirstNul(s);
    Pair(s[..i], Parsed(s[i + 1..], 0))
  }

  function FirstNul(s: string): (i: nat)
    requires NUL in s
    ensures i < |s| && s[i] == NUL && NUL !in s[..i]
  {
    if s[0] == NUL then 0 else
    assert s == [s[0]] + s[1..];
    var i := FirstNul(s[1..]);
    assert s[..1 + i] == [s[0]] + s[1..][..i];
    1 + i
  }

  // Exactly the NUL-free topics and non-negative partitions survive the packing.
  predicate Packable(p: Pair) { NUL !in p.topic && 0 <= p.partition }

  lemma PackRoundTrip(p: Pair)
    ensures Unpacked(Packed(p)) == p <==> Packable(p)
  {
    hide Parsed, Digits, FirstNul;
    var s, n := Packed(p), |p.topic|;
    assert s[n] == NUL && s[..n] == p.topic;
    if NUL !in p.topic {
      FirstNulAt(s, n);
      assert s[n + 1..] == Printed(p.partition);
      if p.partition >= 0 { ParseDigits(p.partition); } else { ParsedSign(Printed(p.partition)); }
    } else {
      FirstNulWithin(s, p.topic);
    }
  }

  lemma FirstNulWithin(s: string, topic: string)
    requires topic <= s && NUL in topic
    ensures FirstNul(s) < |topic|
  {
    var k :| 0 <= k < |topic| && topic[k] == NUL;
    var i := FirstNul(s);
  }

  lemma ParsedSign(s: string)
    requires s != "" && s[0] == '-'
    ensures Parsed(s, 0) == 0
  {
  }

  method SplitTopicPartition(tp: string) returns (topic: string, partition: int32)
    ensures Pair(topic, partition) == Unpacked(tp)
  {
    for i := 0 to |tp|
      invariant NUL !in tp[..i]
    {
      if tp[i] == NUL {
        FirstNulAt(tp, i);
        partition := ParseInt(tp[i + 1..]);
        return tp[..i], partition;
      }
      assert tp[..i + 1] == tp[..i] + [tp[i]];
    }
    assert tp[..|tp|] == tp;
    return tp, 0;
  }

  lemma FirstNulAt(s: string, i: nat)
    requires i < |s| && s[i] == NUL && NUL !in s[..i]
    ensures NUL in s && FirstNul(s) == i
  {
    var j := FirstNul(s);
  }

  // ------------------------------------------------------------ grouping by topic

  function Of(m: Grouped, topic: string): seq<int32> { if topic in m then m[topic] else [] }

  function GroupByTopic(ps: seq<Pair>): Grouped
  {
    if ps == [] then map[] else
    var m, p := GroupByTopic(ps[..|ps| - 1]), ps[|ps| - 1];
    m[p.topic := Of(m, p.topic) + [p.partition]]
  }

  function UnpackedAll(tps: seq<string>): (ps: seq<Pair>)
    ensures |ps| == |tps| && forall i :: 0 <= i < |tps| ==> ps[i] == Unpacked(tps[i])
  {
    seq(|tps|, i requires 0 <= i < |tps| => Unpacked(tps[i]))
  }

  method ToMap(tps: seq<string>) returns (out: Grouped)
    ensures out == GroupByTopic(UnpackedAll(tps))
  {
    hide Unpacked, GroupByTopic;
    out := map[];
    GroupNone(UnpackedAll(tps));
    for i := 0 to |tps|
      invariant out == GroupByTopic(UnpackedAll(tps)[..i])
    {
      var t, p := SplitTopicPartition(tps[i]);
      GroupStep(UnpackedAll(tps), i);
      out := out[t := Of(out, t) + [p]];
    }
    assert UnpackedAll(tps)[..|tps|] == UnpackedAll(tps);
  }

  lemma GroupNone(ps: seq<Pair>)
    ensures GroupByTopic(ps[..0]) == map[]
  {
  }

  lemma GroupStep(ps: seq<Pair>, i: nat)
    requires i < |ps|
    ensures var m := GroupByTopic(ps[..i]);
      GroupByTopic(ps[..i + 1]) == m[ps[i].topic := Of(m, ps[i].topic) + [ps[i].partition]]
  {
    assert ps[..i + 1][..i] == ps[..i];
  }

  // Grouping keeps, for each topic, exactly its partitions in their order.
  function PartitionsOf(ps: seq<Pair>, topic: string): seq<int32>
  {
    if ps == [] then [] else
    PartitionsOf(ps[..|ps| - 1], topic) + if ps[|ps| - 1].topic == topic then [ps[|ps| - 1].partition] else []
  }

  lemma {:induction false} GroupByTopicOf(ps: seq<Pair>, topic: string)
    ensures Of(GroupByTopic(ps), topic) == PartitionsOf(ps, topic)
    decreases |ps|
  {
    if ps != [] { GroupByTopicOf(ps[..|ps| - 1], topic); }
  }

  lemma {:induction false} PartitionsOfContains(ps: seq<Pair>, topic: string, p: int32)
    ensures p in PartitionsOf(ps, topic) <==> Pair(topic, p) in ps
    decreases |ps|
  {
    if ps != [] {
      var front, last := ps[..|ps| - 1], ps[|ps| - 1];
      PartitionsOfContains(front, topic, p);
      assert ps == front + [last];
    }
  }

  function Holdings(m: Grouped): set<Pair> { set t, p | t in m && p in m[t] :: Pair(t, p) }

  lemma HoldingsOfGroup(ps: seq<Pair>)
    ensures Holdings(GroupByTopic(ps)) == set p | p in ps
  {
    hide GroupByTopic, PartitionsOf;
    var m := GroupByTopic(ps);
    forall x: Pair ensures x in Holdings(m) <==> x in ps {
      GroupByTopicOf(ps, x.topic);
      PartitionsOfContains(ps, x.topic, x.partition);
      assert x == Pair(x.topic, x.partition);
    }
  }

  // ------------------------------------------------------------ dealing

  // Every n-th element, from the i-th on.
  function Share<T>(s: seq<T>, n: nat, i: nat): seq<T>
    requires n > 0
  {
    if s == [] then [] else
    var k := |s| - 1;
    Share(s[..k], n, i) + if k % n == i then [s[k]] else []
  }

  lemma DivStep(k: nat, n: nat)
    requires n > 0
    ensures k % n + 1 < n ==> (k + 1) / n == k / n && (k + 1) % n == k % n + 1
    ensures k % n + 1 == n ==> (k + 1) / n == k / n + 1 && (k + 1) % n == 0
  {
    assert k == k / n * n + k % n;
    if k % n + 1 < n {
      ModUnique(k + 1, n, k / n, k % n + 1);
      QuotientUnique(k + 1, n, k / n, k % n + 1);
    } else {
      assert k + 1 == (k / n + 1) * n;
      ModUnique(k + 1, n, k / n + 1, 0);
      QuotientUnique(k + 1, n, k / n + 1, 0);
    }
  }

  lemma QuotientUnique(v: nat, d: nat, q: nat, r: nat)
    requires d > 0 && r < d && v == q * d + r
    ensures v / d == q
  {
    ModUnique(v, d, q, r);
    var e := q - v / d;
    assert v == v / d * d + v % d;
    assert e * d == 0;
  }

  // Shares differ in size by at most one: the first |s| % n members get one more.
  lemma {:induction false} ShareSize<T>(s: seq<T>, n: nat, i: nat)
    requires i < n
    ensures |Share(s, n, i)| == |s| / n + if i < |s| % n then 1 else 0
    decreases |s|
  {
    if s == [] {
      assert 0 / n == 0 && 0 % n == 0;
    } else {
      var k := |s| - 1;
      ShareSize(s[..k], n, i);
      DivStep(k, n);
    }
  }

  lemma {:induction false} ShareHas<T>(s: seq<T>, n: nat, j: nat)
    requires n > 0 && j < |s|
    ensures s[j] in Share(s, n, j % n)
    decreases |s|
  {
    var k := |s| - 1;
    if j < k { ShareHas(s[..k], n, j); }
  }

  lemma {:induction false} ShareFrom<T>(s: seq<T>, n: nat, i: nat, x: T) returns (j: nat)
    requires n > 0 && x in Share(s, n, i)
    ensures j < |s| && s[j] == x && j % n == i
    decreases |s|
  {
    var k := |s| - 1;
    if k % n == i && s[k] == x { j := k; } else { j := ShareFrom(s[..k], n, i, x); }
  }

  predicate Distinct<T(==)>(s: seq<T>) { forall i, j :: 0 <= i < j < |s| ==> s[i] != s[j] }

  lemma {:induction false} ShareDistinct<T>(s: seq<T>, n: nat, i: nat)
    requires n > 0 && Distinct(s)
    ensures Distinct(Share(s, n, i))
    decreases |s|
  {
    if s != [] {
      var k := |s| - 1;
      ShareDistinct(s[..k], n, i);
      if s[k] in Share(s[..k], n, i) { var j := ShareFrom(s[..k], n, i, s[k]); }
    }
  }

  lemma {:induction false} DistinctSize<T>(s: seq<T>)
    requires Distinct(s)
    ensures |set x | x in s| == |s|
    decreases |s|
  {
    if s != [] {
      var k := |s| - 1;
      DistinctSize(s[..k]);
      assert (set x | x in s) == (set x | x in s[..k]) + {s[k]};
    }
  }

  // What the i-th of n members is given.
  function Held(ps: seq<Pair>, n: nat, i: nat): set<Pair>
    requires n > 0
  {
    Holdings(GroupByTopic(Share(ps, n, i)))
  }

  // Every pair goes to exactly one member, in turn.
  lemma DealtToOne(ps: seq<Pair>, n: nat, j: nat, i: nat)
    requires i < n && j < |ps| && Distinct(ps)
    ensures ps[j] in Held(ps, n, i) <==> i == j % n
  {
    hide GroupByTopic, Holdings, Share;
    HoldingsOfGroup(Share(ps, n, i));
    ShareHas(ps, n, j);
    if ps[j] in Share(ps, n, i) { var j' := ShareFrom(ps, n, i, ps[j]); }
  }

  // Nobody is given anything else, and the loads are |ps| / n or one more.
  lemma DealtFairly(ps: seq<Pair>, n: nat, i: nat)
    requires i < n && Distinct(ps)
    ensures forall p :: p in Held(ps, n, i) ==> p in ps
    ensures |Held(ps, n, i)| == |ps| / n + if i < |ps| % n then 1 else 0
  {
    hide GroupByTopic, Holdings, Share, Held;
    HeldIsShare(ps, n, i);
    ShareDistinct(ps, n, i);
    DistinctSize(Share(ps, n, i));
    ShareSize(ps, n, i);
    forall p | p in Held(ps, n, i) ensures p in ps {
      var j := ShareFrom(ps, n, i, p);
    }
  }

  lemma HeldIsShare(ps: seq<Pair>, n: nat, i: nat)
    requires n > 0
    ensures Held(ps, n, i) == set p | p in Share(ps, n, i)
  {
    HoldingsOfGroup(Share(ps, n, i));
  }

  // ------------------------------------------------------------ the leader's computation

  // The partitions the client's metadata lists for each topic, in order.
  function PairsOf(topic: string, parts: seq<int32>): (r: seq<Pair>)
    ensures |r| == |parts| && forall i :: 0 <= i < |parts| ==> r[i] == Pair(topic, parts[i])
  {
    seq(|parts|, i requires 0 <= i < |parts| => Pair(topic, parts[i]))
  }

  function AllPairs(topics: seq<string>, metadata: Grouped): seq<Pair>
  {
    if topics == [] then [] else
    var k := |topics| - 1;
    AllPairs(topics[..k], metadata) + PairsOf(topics[k], Of(metadata, topics[k]))
  }

  lemma {:induction false} AllPairsContains(topics: seq<string>, metadata: Grouped, p: Pair)
    ensures p in AllPairs(topics, metadata) <==> p.topic in topics && p.partition in Of(metadata, p.topic)
    decreases |topics|
  {
    if topics != [] {
      var k := |topics| - 1;
      AllPairsContains(topics[..k], metadata, p);
      assert topics == topics[..k] + [topics[k]];
      var last := PairsOf(topics[k], Of(metadata, topics[k]));
      if p.topic == topics[k] && p.partition in Of(metadata, p.topic) {
        var j :| 0 <= j < |Of(metadata, p.topic)| && Of(metadata, p.topic)[j] == p.partition;
        assert last[j] == p;
      }
    }
  }

  lemma {:induction false} AllPairsDistinct(topics: seq<string>, metadata: Grouped)
    requires Distinct(topics) && forall t :: t in topics ==> Distinct(Of(metadata, t))
    ensures Distinct(AllPairs(topics, metadata))
    decreases |topics|
  {
    if topics != [] {
      var k := |topics| - 1;
      AllPairsDistinct(topics[..k], metadata);
      var front, last := AllPairs(topics[..k], metadata), PairsOf(topics[k], Of(metadata, topics[k]));
      assert Distinct(Of(metadata, topics[k]));
      forall i, j | 0 <= i < |front| && 0 <= j < |last| ensures front[i] != last[j] {
        AllPairsContains(topics[..k], metadata, front[i]);
      }
    }
  }

  // Among any positive number of members, every partition of every subscribed topic has one owner.
  lemma OneOwner(topics: seq<string>, metadata: Grouped, n: nat, p: Pair) returns (owner: nat)
    requires n > 0 && Distinct(topics) && forall t :: t in topics ==> Distinct(Of(metadata, t))
    requires p.topic in topics && p.partition in Of(metadata, p.topic)
    ensures owner < n
    ensures forall i :: 0 <= i < n ==> (p in Held(AllPairs(topics, metadata), n, i) <==> i == owner)
  {
    hide Held, AllPairs;
    var ps := AllPairs(topics, metadata);
    AllPairsContains(topics, metadata, p);
    AllPairsDistinct(topics, metadata);
    var j :| 0 <= j < |ps| && ps[j] == p;
    owner := j % n;
    forall i | 0 <= i < n ensures p in Held(ps, n, i) <==> i == owner { DealtToOne(ps, n, j, i); }
  }

  function PackedAll(ps: seq<Pair>): (r: seq<string>)
    ensures |r| == |ps| && forall i :: 0 <= i < |ps| ==> r[i] == Packed(ps[i])
  {
    seq(|ps|, i requires 0 <= i < |ps| => Packed(ps[i]))
  }

  lemma {:induction false} SharePacked(ps: seq<Pair>, n: nat, i: nat)
    requires n > 0 && forall p :: p in ps ==> Packable(p)
    ensures UnpackedAll(Share(PackedAll(ps), n, i)) == Share(ps, n, i)
    decreases |ps|
  {
    hide Unpacked, Packed, Packable;
    if ps != [] {
      var k := |ps| - 1;
      assert PackedAll(ps)[..k] == PackedAll(ps[..k]);
      SharePacked(ps[..k], n, i);
      PackRoundTrip(ps[k]);
    }
  }

  // Packing every partition of every topic.
  method CollectAll(topics: seq<string>, metadata: Grouped) returns (all: seq<string>)
    ensures all == PackedAll(AllPairs(topics, metadata))
  {
    hide Packed, PairsOf;
    all := [];
    for k := 0 to |topics|
      invariant all == PackedAll(AllPairs(topics[..k], metadata))
    {
      var t := topics[k];
      var parts := Of(metadata, t);
      ghost var before := AllPairs(topics[..k], metadata);
      PairsSize(t, parts);
      for j := 0 to |parts|
        invariant all == PackedAll(before + PairsOf(t, parts)[..j])
      {
        PairsStep(before, t, parts, j);
        var number := Itoa(parts[j]);
        assert t + [NUL] + number == Packed(Pair(t, parts[j])) by { PackedIs(Pair(t, parts[j])); }
        all := all + [t + [NUL] + number];
      }
      assert PairsOf(t, parts)[..|parts|] == PairsOf(t, parts);
      assert topics[..k + 1][..k] == topics[..k];
    }
    assert topics[..|topics|] == topics;
  }

  lemma PairsSize(t: string, parts: seq<int32>)
    ensures |PairsOf(t, parts)| == |parts|
  {
  }

  lemma PairsStep(before: seq<Pair>, t: string, parts: seq<int32>, j: nat)
    requires j < |parts|
    ensures |PairsOf(t, parts)| == |parts|
    ensures before + PairsOf(t, parts)[..j + 1] == before + PairsOf(t, parts)[..j] + [Pair(t, parts[j])]
  {
  }

  lemma PackedIs(p: Pair)
    ensures Packed(p) == p.topic + [NUL] + Printed(p.partition)
  {
  }

  // Round-robin over the members in the order of the join response.
  method Deal(all: seq<string>, names: seq<string>) returns (assign: map<string, seq<string>>)
    requires |names| > 0 && Distinct(names)
    ensures forall i :: 0 <= i < |names| ==> names[i] in assign && assign[names[i]] == Share(all, |names|, i)
  {
    var n := |names|;
    assign := map[];
    for i := 0 to n
      invariant forall j :: 0 <= j < i ==> names[j] in assign && assign[names[j]] == []
    {
      assign := assign[names[i] := []];
    }
    assert all[..0] == [];
    for k := 0 to |all|
      invariant forall i :: 0 <= i < n ==> names[i] in assign && assign[names[i]] == Share(all[..k], n, i)
    {
      var m := names[k % n];
      assert all[..k + 1][..k] == all[..k];
      assign := assign[m := assign[m] + [all[k]]];
    }
    assert all[..|all|] == all;
  }

  method ComputeAssignment(topics: seq<string>, metadata: Grouped, members: seq<string>)
    returns (out: seq<MemberAssignment>)
    requires |members| > 0 && Distinct(members)
    ensures |out| == |members| && forall i :: 0 <= i < |out| ==> out[i].memberId == members[i]
    ensures (forall p :: p in AllPairs(topics, metadata) ==> Packable(p)) ==>
      forall i :: 0 <= i < |out| ==>
        out[i].topicPartitions == GroupByTopic(Share(AllPairs(topics, metadata), |members|, i))
  {
    hide Packable, Share, GroupByTopic, Unpacked, Packed;
    ghost var ps := AllPairs(topics, metadata);
    var all := CollectAll(topics, metadata);
    var assign := Deal(all, members);
    out := [];
    for i := 0 to |members|
      invariant |out| == i && forall j :: 0 <= j < i ==> out[j].memberId == members[j]
      invariant (forall p :: p in ps ==> Packable(p)) ==>
        forall j :: 0 <= j < i ==> out[j].topicPartitions == GroupByTopic(Share(ps, |members|, j))
    {
      var m := ToMap(assign[members[i]]);
      if forall p :: p in ps ==> Packable(p) { SharePacked(ps, |members|, i); }
      out := out + [MemberAssignment(members[i], m)];
    }
  }
}
