/** The recommended channel: two stable in-place sorts and the head of the second. */
module Recommendation {
  import opened Collections
  import opened Channels
  import opened Rounding

  const UNKNOWN_RANK := 99

  function Rank(channel: string): int
  {
    if channel == "cash" then 1
    else if channel == "bank_transfer" then 2
    else if channel == "mobile_money_mtn" then 3
    else if channel == "mobile_money_airtel" then 4
    else if channel == "other" then 5
    else UNKNOWN_RANK
  }

  /** An offer with the failure score of its channel. */
  datatype Scored = Scored(offer: Offer, score: real) {
    function Rk(): int { Rank(offer.channel) }
  }

  /** The sort key of `estimates`: (fee, rank). */
  predicate CheaperOffer(a: Offer, b: Offer)
  {
    a.fee < b.fee || (a.fee == b.fee && Rank(a.channel) <= Rank(b.channel))
  }

  predicate Cheaper(a: Scored, b: Scored)
  {
    CheaperOffer(a.offer, b.offer)
  }

  /** The sort key of `scored`: (fee, score, rank). */
  predicate Better(a: Scored, b: Scored)
  {
    a.offer.fee < b.offer.fee
    || (a.offer.fee == b.offer.fee && (a.score < b.score || (a.score == b.score && a.Rk() <= b.Rk())))
  }

  type Order<!T> = (T, T) -> bool

  ghost predicate TotalPreorder<T(!new)>(leq: Order<T>)
  {
    (forall x, y :: leq(x, y) || leq(y, x)) && (forall x, y, z :: leq(x, y) && leq(y, z) ==> leq(x, z))
  }

  // ----- list.sort: stable -----

  function Insert<T>(x: T, s: seq<T>, leq: Order<T>): seq<T>
  {
    if s == [] || leq(x, s[0]) then [x] + s else [s[0]] + Insert(x, s[1..], leq)
  }

  function Sort<T>(s: seq<T>, leq: Order<T>): seq<T>
  {
    if s == [] then [] else Insert(s[0], Sort(s[1..], leq), leq)
  }

  predicate Sorted<T>(s: seq<T>, leq: Order<T>)
  {
    forall i, j | 0 <= i < j < |s| :: leq(s[i], s[j])
  }

  lemma {:induction false} InsertPermutes<T>(x: T, s: seq<T>, leq: Order<T>)
    ensures multiset(Insert(x, s, leq)) == multiset(s) + multiset{x}
  {
    if s != [] && !leq(x, s[0]) {
      InsertPermutes(x, s[1..], leq);
      assert s == [s[0]] + s[1..];
    }
  }

  lemma {:induction false} InsertSorts<T(!new)>(x: T, s: seq<T>, leq: Order<T>)
    requires TotalPreorder(leq) && Sorted(s, leq)
    ensures Sorted(Insert(x, s, leq), leq)
  {
    if s != [] && !leq(x, s[0]) {
      InsertSorts(x, s[1..], leq);
      InsertPermutes(x, s[1..], leq);
      var t := Insert(x, s[1..], leq);
      forall y | y in t ensures leq(s[0], y) {
        assert y in multiset(t);
        assert y == x || y in s[1..];
      }
    }
  }

  lemma {:induction false} SortSorts<T(!new)>(s: seq<T>, leq: Order<T>)
    requires TotalPreorder(leq)
    ensures Sorted(Sort(s, leq), leq)
    ensures multiset(Sort(s, leq)) == multiset(s)
  {
    if s != [] {
      SortSorts(s[1..], leq);
      InsertSorts(s[0], Sort(s[1..], leq), leq);
      InsertPermutes(s[0], Sort(s[1..], leq), leq);
      assert s == [s[0]] + s[1..];
    }
  }

  lemma CheaperIsOrder()
    ensures TotalPreorder(Cheaper) && TotalPreorder(CheaperOffer)
  {
  }

  lemma BetterIsOrder()
    ensures TotalPreorder(Better)
  {
  }

  // ----- Who comes first -----

  /** No channel on offer beats x. */
  ghost predicate Minimal(x: Scored, all: multiset<Scored>)
  {
    x in all && forall y | y in all :: Better(x, y)
  }

  /** The first of the minimal ones. */
  ghost function FirstMinimal(s: seq<Scored>, all: multiset<Scored>): Option<Scored>
  {
    if s == [] then None
    else if Minimal(s[0], all) then Some(s[0])
    else FirstMinimal(s[1..], all)
  }

  /** An order that does not tell minimal elements apart. */
  ghost predicate Blind(leq: Order<Scored>, all: multiset<Scored>)
  {
    forall x, y :: Minimal(x, all) && Minimal(y, all) ==> leq(x, y)
  }

  lemma {:induction false} InsertKeepsFirst(x: Scored, s: seq<Scored>, leq: Order<Scored>, all: multiset<Scored>)
    requires Blind(leq, all)
    ensures FirstMinimal(Insert(x, s, leq), all) == if Minimal(x, all) then Some(x) else FirstMinimal(s, all)
  {
    if s != [] && !leq(x, s[0]) {
      InsertKeepsFirst(x, s[1..], leq, all);
    }
  }

  /** A stable sort leaves the minimal elements in the order in which they came. */
  lemma {:induction false} SortKeepsFirst(s: seq<Scored>, leq: Order<Scored>, all: multiset<Scored>)
    requires Blind(leq, all)
    ensures FirstMinimal(Sort(s, leq), all) == FirstMinimal(s, all)
  {
    if s != [] {
      SortKeepsFirst(s[1..], leq, all);
      InsertKeepsFirst(s[0], Sort(s[1..], leq), leq, all);
    }
  }

  lemma HeadIsMinimal(s: seq<Scored>)
    requires s != []
    ensures Sort(s, Better) != [] && Minimal(Sort(s, Better)[0], multiset(s))
  {
    BetterIsOrder();
    SortSorts(s, Better);
    var t := Sort(s, Better);
    assert |multiset(t)| == |multiset(s)|;
    assert t[0] in multiset(t);
    forall y | y in multiset(s) ensures Better(t[0], y) {
      assert y in t;
      assert Better(y, y);
    }
  }

  /** The head of the two sorts, in the order in which the source applies them. */
  function Recommended(s: seq<Scored>): Scored
    requires s != []
  {
    CheaperIsOrder();
    SortSorts(s, Cheaper);
    assert |multiset(Sort(s, Cheaper))| == |multiset(s)|;
    HeadIsMinimal(Sort(s, Cheaper));
    Sort(Sort(s, Cheaper), Better)[0]
  }

  lemma SortedTwice(s: seq<Scored>)
    requires s != []
    ensures Sort(Sort(s, Cheaper), Better) != [] && Sort(Sort(s, Cheaper), Better)[0] == Recommended(s)
  {
    CheaperIsOrder();
    SortSorts(s, Cheaper);
    assert |multiset(Sort(s, Cheaper))| == |multiset(s)|;
    HeadIsMinimal(Sort(s, Cheaper));
  }

  /** Through both sorts, the recommendation is a lexicographic minimum of (fee, score, rank), and among
      several it is the one that comes first in the fee map. */
  lemma RecommendedIsFirstMinimal(s: seq<Scored>)
    requires s != []
    ensures Minimal(Recommended(s), multiset(s))
    ensures FirstMinimal(s, multiset(s)) == Some(Recommended(s))
  {
    var all := multiset(s);
    CheaperIsOrder();
    SortSorts(s, Cheaper);
    var once := Sort(s, Cheaper);
    assert multiset(once) == all && |multiset(once)| == |all|;
    HeadIsMinimal(once);
    SortKeepsFirst(s, Cheaper, all);
    SortKeepsFirst(once, Better, all);
    assert FirstMinimal(Sort(once, Better), all) == Some(Sort(once, Better)[0]);
  }

  // ----- Does the order of the fee map matter? -----

  ghost predicate OneMinimal(all: multiset<Scored>)
  {
    forall x, y :: Minimal(x, all) && Minimal(y, all) ==> x == y
  }

  /** The recommendation is the same for every order of the fee map exactly when one channel alone
      attains the minimum. */
  lemma OrderIrrelevantIff(s: seq<Scored>)
    requires s != []
    ensures (forall t: seq<Scored> :: t != [] && multiset(t) == multiset(s) ==> Recommended(t) == Recommended(s))
            <==> OneMinimal(multiset(s))
  {
    var all := multiset(s);
    if OneMinimal(all) {
      forall t: seq<Scored> | t != [] && multiset(t) == all ensures Recommended(t) == Recommended(s) {
        RecommendedIsFirstMinimal(t);
        RecommendedIsFirstMinimal(s);
      }
    } else {
      var x, y :| Minimal(x, all) && Minimal(y, all) && x != y;
      PutFirst(s, x);
      PutFirst(s, y);
    }
  }

  lemma ToFront(s: seq<Scored>, x: Scored) returns (t: seq<Scored>)
    requires x in s
    ensures t != [] && t[0] == x && multiset(t) == multiset(s)
  {
    var i :| 0 <= i < |s| && s[i] == x;
    var rest := s[..i] + s[i + 1..];
    WithoutOne(s, i);
    t := [x] + rest;
  }

  lemma PutFirst(s: seq<Scored>, x: Scored)
    requires Minimal(x, multiset(s))
    ensures exists t: seq<Scored> :: t != [] && multiset(t) == multiset(s) && Recommended(t) == x
  {
    assert x in s;
    var t := ToFront(s, x);
    RecommendedIsFirstMinimal(t);
    assert FirstMinimal(t, multiset(s)) == Some(x);
  }

  predicate Known(channel: string)
  {
    Rank(channel) != UNKNOWN_RANK
  }

  lemma RanksTellKnownApart(c: string, d: string)
    requires Known(c) && Known(d) && Rank(c) == Rank(d)
    ensures c == d
  {
  }

  /** With known channels only, each once, the order never matters. */
  lemma KnownChannelsOneMinimal(s: seq<Scored>)
    requires forall x <- s :: Known(x.offer.channel)
    requires forall i, j | 0 <= i < |s| && 0 <= j < |s| && s[i].offer.channel == s[j].offer.channel :: i == j
    ensures OneMinimal(multiset(s))
  {
    forall x, y | Minimal(x, multiset(s)) && Minimal(y, multiset(s)) ensures x == y {
      assert x in s && y in s;
      assert Better(x, y) && Better(y, x);
      RanksTellKnownApart(x.offer.channel, y.offer.channel);
      var i :| 0 <= i < |s| && s[i] == x;
      var j :| 0 <= j < |s| && s[j] == y;
    }
  }

  // ----- The service functions -----

  /** The offers for a fee map, in its order. */
  function Offers(amount: real, fees: FeeMap): seq<Offer>
  {
    seq(|fees|, i requires 0 <= i < |fees| => OfferFor(amount, fees[i].0, fees[i].1))
  }

  /** `estimate_payment_cost` */
  method EstimatePaymentCost(amount: real, custom: FeeMap) returns (estimates: seq<Offer>)
    ensures estimates == Sort(Offers(amount, ChannelFees(custom)), CheaperOffer)
    ensures multiset(estimates) == multiset(Offers(amount, ChannelFees(custom)))
    ensures forall i, j | 0 <= i < j < |estimates| ::
              estimates[i].fee < estimates[j].fee
              || (estimates[i].fee == estimates[j].fee && Rank(estimates[i].channel) <= Rank(estimates[j].channel))
  {
    var fees := ChannelFees(custom);
    estimates := [];
    for i := 0 to |fees|
      invariant estimates == Offers(amount, fees)[..i]
    {
      var (channel, pct) := fees[i];
      assert Offers(amount, fees)[i] == OfferFor(amount, channel, pct);
      var fee := RoundTo(amount * pct / 100.0, Cents);
      estimates := estimates + [Offer(channel, pct, fee, RoundTo(amount + fee, Cents))];
    }
    assert estimates == Offers(amount, fees);
    CheaperIsOrder();
    SortSorts(estimates, CheaperOffer);
    estimates := Sort(estimates, CheaperOffer);
  }

  /** A tenant's recent history by channel; None for no tenant. */
  type Histories = string -> Option<History>

  function ScoredOffer(amount: real, histories: Histories, o: Offer): Scored
  {
    Scored(o, FailureScore(amount, o.channel, histories(o.channel)))
  }

  function ScoredAll(amount: real, histories: Histories, os: seq<Offer>): seq<Scored>
  {
    seq(|os|, i requires 0 <= i < |os| => ScoredOffer(amount, histories, os[i]))
  }

  lemma ScoredCons(amount: real, histories: Histories, o: Offer, os: seq<Offer>)
    ensures ScoredAll(amount, histories, [o] + os) == [ScoredOffer(amount, histories, o)] + ScoredAll(amount, histories, os)
  {
  }

  lemma {:induction false} InsertScored(amount: real, histories: Histories, o: Offer, os: seq<Offer>)
    ensures ScoredAll(amount, histories, Insert(o, os, CheaperOffer))
            == Insert(ScoredOffer(amount, histories, o), ScoredAll(amount, histories, os), Cheaper)
  {
    ScoredCons(amount, histories, o, os);
    if os != [] {
      assert os == [os[0]] + os[1..];
      ScoredCons(amount, histories, os[0], os[1..]);
      ScoredCons(amount, histories, os[0], Insert(o, os[1..], CheaperOffer));
      InsertScored(amount, histories, o, os[1..]);
      assert ScoredAll(amount, histories, os)[1..] == ScoredAll(amount, histories, os[1..]);
    }
  }

  /** Scoring the sorted estimates is sorting the scored ones. */
  lemma {:induction false} SortScored(amount: real, histories: Histories, os: seq<Offer>)
    ensures ScoredAll(amount, histories, Sort(os, CheaperOffer)) == Sort(ScoredAll(amount, histories, os), Cheaper)
  {
    if os != [] {
      SortScored(amount, histories, os[1..]);
      InsertScored(amount, histories, os[0], Sort(os[1..], CheaperOffer));
      assert ScoredAll(amount, histories, os)[1..] == ScoredAll(amount, histories, os[1..]);
    }
  }

  function ScoredFees(amount: real, histories: Histories, fees: FeeMap): seq<Scored>
  {
    ScoredAll(amount, histories, Offers(amount, fees))
  }

  function Map<A, B>(s: seq<A>, f: A -> B): seq<B>
  {
    seq(|s|, i requires 0 <= i < |s| => f(s[i]))
  }

  lemma WithoutOne<T>(s: seq<T>, i: nat)
    requires i < |s|
    ensures multiset(s) == multiset(s[..i] + s[i + 1..]) + multiset{s[i]}
  {
    assert s == s[..i] + [s[i]] + s[i + 1..];
  }

  lemma MapWithoutOne<A, B>(s: seq<A>, f: A -> B, i: nat)
    requires i < |s|
    ensures multiset(Map(s, f)) == multiset(Map(s[..i] + s[i + 1..], f)) + multiset{f(s[i])}
  {
    WithoutOne(Map(s, f), i);
    assert Map(s[..i] + s[i + 1..], f) == Map(s, f)[..i] + Map(s, f)[i + 1..];
  }

  lemma CancelOne<T>(a: multiset<T>, b: multiset<T>, x: T)
    requires a + multiset{x} == b + multiset{x}
    ensures a == b
  {
    assert a == (a + multiset{x}) - multiset{x};
    assert b == (b + multiset{x}) - multiset{x};
  }

  lemma {:induction false} MapPermutes<A, B>(s: seq<A>, t: seq<A>, f: A -> B)
    requires multiset(s) == multiset(t)
    ensures multiset(Map(s, f)) == multiset(Map(t, f))
    decreases |s|
  {
    assert |multiset(s)| == |s| && |multiset(t)| == |t|;
    if s != [] {
      assert s[0] in multiset(t);
      var i :| 0 <= i < |t| && t[i] == s[0];
      var (s1, t1) := (s[..0] + s[1..], t[..i] + t[i + 1..]);
      WithoutOne(s, 0);
      WithoutOne(t, i);
      CancelOne(multiset(s1), multiset(t1), s[0]);
      MapPermutes(s1, t1, f);
      MapWithoutOne(s, f, 0);
      MapWithoutOne(t, f, i);
    }
  }

  lemma PermutedFees(amount: real, histories: Histories, f: FeeMap, g: FeeMap)
    requires multiset(f) == multiset(g)
    ensures multiset(ScoredFees(amount, histories, f)) == multiset(ScoredFees(amount, histories, g))
  {
    var score := (e: (string, real)) => ScoredOffer(amount, histories, OfferFor(amount, e.0, e.1));
    assert ScoredFees(amount, histories, f) == Map(f, score);
    assert ScoredFees(amount, histories, g) == Map(g, score);
    MapPermutes(f, g, score);
  }

  /** With known channels only, two orders of the same fee map lead to the same recommendation. */
  lemma FeeMapOrderIrrelevant(amount: real, histories: Histories, f: FeeMap, g: FeeMap)
    requires f != [] && Distinct(f) && (forall e <- f :: Known(e.0))
    requires multiset(f) == multiset(g) && g != []
    ensures Recommended(ScoredFees(amount, histories, f)) == Recommended(ScoredFees(amount, histories, g))
  {
    var s := ScoredFees(amount, histories, f);
    forall x <- s ensures Known(x.offer.channel) {
      var i :| 0 <= i < |f| && s[i] == x;
      assert f[i] in f;
    }
    KnownChannelsOneMinimal(s);
    OrderIrrelevantIff(s);
    PermutedFees(amount, histories, f, g);
  }

  /** An organisation's fees that undercut the defaults with two channels the service does not know. */
  function Undercut(first: string, second: string): FeeMap
  {
    [("cash", 1.0), ("other", 1.0), (first, 0.0), (second, 0.0)]
  }

  lemma PutAt(fees: FeeMap, channel: string, pct: real, i: nat)
    requires i <= |fees| && (i < |fees| ==> fees[i].0 == channel) && forall j | 0 <= j < i :: fees[j].0 != channel
    ensures Put(fees, channel, pct) == if i < |fees| then fees[i := (channel, pct)] else fees + [(channel, pct)]
  {
    var p := Position(fees, channel);
    assert p == i;
  }

  function UndercutDefaults(first: string, second: string): FeeMap
  {
    [("mobile_money_mtn", 1.0), ("mobile_money_airtel", 1.0), ("bank_transfer", 0.5), ("cash", 1.0), ("other", 1.0),
     (first, 0.0), (second, 0.0)]
  }

  lemma UndercutFees(first: string, second: string)
    requires first != second && Rank(first) == Rank(second) == UNKNOWN_RANK
    ensures ChannelFees(Undercut(first, second)) == UndercutDefaults(first, second)
  {
    var custom := Undercut(first, second);
    var f1 := DEFAULT_FEES[3 := ("cash", 1.0)];
    var f2 := f1[4 := ("other", 1.0)];
    var f3 := f2 + [(first, 0.0)];
    PutAt(DEFAULT_FEES, "cash", 1.0, 3);
    PutAt(f1, "other", 1.0, 4);
    PutAt(f2, first, 0.0, 5);
    PutAt(f3, second, 0.0, 6);
    assert Merge(f3, custom[3..]) == f3 + [(second, 0.0)] by { assert custom[3..][1..] == []; }
    assert Merge(f2, custom[2..]) == Merge(f3, custom[3..]) by { assert custom[2..][1..] == custom[3..]; }
    assert Merge(f1, custom[1..]) == Merge(f2, custom[2..]) by { assert custom[1..][1..] == custom[2..]; }
  }

  /** With those fees the order decides: the channel that comes first is recommended. */
  lemma UnknownChannelsTie()
    ensures var h: Histories := _ => None;
            var s := ScoredFees(1000.0, h, ChannelFees(Undercut("wallet", "voucher")));
            var t := ScoredFees(1000.0, h, ChannelFees(Undercut("voucher", "wallet")));
            s != [] && t != []
            && Recommended(s).offer.channel == "wallet" && Recommended(t).offer.channel == "voucher"
  {
    FirstUndercutWins("wallet", "voucher");
    FirstUndercutWins("voucher", "wallet");
  }

  lemma UndercutCosts()
    ensures Fee(1000.0, 1.0) == 10.0 && Fee(1000.0, 0.5) == 5.0 && Fee(1000.0, 0.0) == 0.0
  {
  }

  lemma ScoredAt(amount: real, histories: Histories, fees: FeeMap, i: nat)
    requires i < |fees|
    ensures |ScoredFees(amount, histories, fees)| == |fees|
    ensures ScoredFees(amount, histories, fees)[i] == ScoredOffer(amount, histories, OfferFor(amount, fees[i].0, fees[i].1))
    ensures ScoredFees(amount, histories, fees)[i].offer.fee == Fee(amount, fees[i].1)
  {
  }

  lemma SameScore(amount: real, first: string, second: string)
    requires BaseRate(first) == BaseRate(second) && !IsMobileMoney(first) && !IsMobileMoney(second)
    ensures FailureScore(amount, first, None) == FailureScore(amount, second, None)
  {
  }

  lemma FirstUndercutWins(first: string, second: string)
    requires first != second && Rank(first) == Rank(second) == UNKNOWN_RANK
    requires BaseRate(first) == BaseRate(second) && !IsMobileMoney(first) && !IsMobileMoney(second)
    ensures var s := ScoredFees(1000.0, _ => None, ChannelFees(Undercut(first, second)));
            s != [] && Recommended(s).offer.channel == first
  {
    UndercutFees(first, second);
    SameScore(1000.0, first, second);
    UndercutWinner(UndercutDefaults(first, second), _ => None);
  }

  lemma UndercutWinner(fees: FeeMap, histories: Histories)
    requires |fees| == 7 && Rank(fees[5].0) == Rank(fees[6].0) && fees[5].1 == fees[6].1 == 0.0
    requires forall i | 0 <= i < 5 :: fees[i].1 == 1.0 || fees[i].1 == 0.5
    requires FailureScore(1000.0, fees[5].0, histories(fees[5].0)) == FailureScore(1000.0, fees[6].0, histories(fees[6].0))
    ensures var s := ScoredFees(1000.0, histories, fees);
            s != [] && Recommended(s).offer.channel == fees[5].0
  {
    var s := ScoredFees(1000.0, histories, fees);
    forall i | 0 <= i < 7 ensures |s| == 7 && s[i].offer.fee == if i < 5 then Fee(1000.0, fees[i].1) else 0.0 {
      ScoredAt(1000.0, histories, fees, i);
      UndercutCosts();
    }
    assert Better(s[5], s[6]) by {
      ScoredAt(1000.0, histories, fees, 5);
      ScoredAt(1000.0, histories, fees, 6);
    }
    assert forall i | 0 <= i < 5 :: s[i].offer.fee > 0.0 by { UndercutCosts(); }
    FirstCheapestWins(s, 5);
    assert s[5].offer.channel == fees[5].0 by { ScoredAt(1000.0, histories, fees, 5); }
  }

  /** The winner costs less than everything before it and is no worse than anything after it. */
  lemma FirstCheapestWins(s: seq<Scored>, k: nat)
    requires k < |s|
    requires forall i | 0 <= i < k :: s[i].offer.fee > s[k].offer.fee
    requires forall i | k <= i < |s| :: Better(s[k], s[i])
    ensures Recommended(s) == s[k]
  {
    var all := multiset(s);
    forall y | y in all ensures Better(s[k], y) {
      assert y in s;
    }
    forall i | 0 <= i < k ensures !Minimal(s[i], all) {
      assert s[k] in all && !Better(s[i], s[k]);
    }
    SkipToFirst(s, all, k);
    RecommendedIsFirstMinimal(s);
  }

  lemma {:induction false} SkipToFirst(s: seq<Scored>, all: multiset<Scored>, k: nat)
    requires k < |s| && Minimal(s[k], all)
    requires forall i | 0 <= i < k :: !Minimal(s[i], all)
    ensures FirstMinimal(s, all) == Some(s[k])
  {
    if k > 0 { SkipToFirst(s[1..], all, k - 1); }
  }

  function RetryStrategy(score: real): string
  {
    if score < 0.1 then "none" else if score < 0.3 then "immediate" else if score < 0.6 then "delayed" else "next_day"
  }

  datatype Decision = Decision(channel: string, score: real, retryStrategy: string, estimates: seq<Offer>)

  lemma {:induction false} PutGrows(fees: FeeMap, custom: FeeMap)
    ensures |Merge(fees, custom)| >= |fees|
    decreases |custom|
  {
    if custom != [] { PutGrows(Put(fees, custom[0].0, custom[0].1), custom[1..]); }
  }

  /** The loop that scores the estimates. */
  method ScoreEstimates(amount: real, histories: Histories, estimates: seq<Offer>) returns (scored: seq<Scored>)
    ensures scored == ScoredAll(amount, histories, estimates)
  {
    scored := [];
    for i := 0 to |estimates|
      invariant |scored| == i
      invariant forall k | 0 <= k < i :: scored[k] == ScoredOffer(amount, histories, estimates[k])
    {
      var score := PredictFailureScore(amount, estimates[i].channel, histories(estimates[i].channel));
      scored := scored + [Scored(estimates[i], score)];
    }
  }

  lemma OffersExist(amount: real, histories: Histories, custom: FeeMap)
    ensures ScoredFees(amount, histories, ChannelFees(custom)) != []
  {
    PutGrows(DEFAULT_FEES, custom);
  }

  /** `recommend_channel`: no offer of the effective fee map has a smaller (fee, score, rank), and no
      equally good one comes before it in the map. */
  method RecommendChannel(amount: real, custom: FeeMap, histories: Histories) returns (d: Decision)
    ensures var all := ScoredFees(amount, histories, ChannelFees(custom));
            var best := FirstMinimal(all, multiset(all));
            best.Some? && Minimal(best.value, multiset(all))
            && d == Decision(best.value.offer.channel, best.value.score, RetryStrategy(best.value.score),
                             Sort(Offers(amount, ChannelFees(custom)), CheaperOffer))
  {
    var estimates := EstimatePaymentCost(amount, custom);
    var scored := ScoreEstimates(amount, histories, estimates);
    ghost var all := ScoredFees(amount, histories, ChannelFees(custom));
    OffersExist(amount, histories, custom);
    SortScored(amount, histories, Offers(amount, ChannelFees(custom)));
    RecommendedIsFirstMinimal(all);
    assert scored == Sort(all, Cheaper);
    scored := Sort(scored, Better);
    assert scored != [] && scored[0] == Recommended(all) by { SortedTwice(all); }
    var best := scored[0];
    d := Decision(best.offer.channel, best.score, RetryStrategy(best.score), estimates);
  }

  // ----- What the recommendation means -----

  /** Cash is the most reliable channel, then bank transfers, MTN, Airtel and others, and a channel that the
      service does not know comes last. */
  lemma RankOrder(unknown: string)
    requires unknown !in {"cash", "bank_transfer", "mobile_money_mtn", "mobile_money_airtel", "other"}
    ensures Rank("cash") < Rank("bank_transfer") < Rank("mobile_money_mtn") < Rank("mobile_money_airtel") < Rank("other")
    ensures Rank("other") < Rank(unknown) == UNKNOWN_RANK
  {
    assert "mobile_money_mtn"[13] != "mobile_money_airtel"[13];
  }

  /** The recommended offer, at position k of the fee map: every other costs more; or costs the same and is
      more likely to fail; or that too is the same, and it is less reliable or stands later in the map. */
  lemma RecommendedMeans(s: seq<Scored>)
    requires s != []
    ensures exists k :: 0 <= k < |s| && s[k] == Recommended(s) && ComesFirst(s, k)
  {
    RecommendedIsFirstMinimal(s);
    var k := FirstMinimalAt(s, multiset(s));
    forall j | 0 <= j < |s| && j != k ensures Precedes(s, k, j) {
      assert s[j] in multiset(s);
      assert Better(s[k], s[j]);
      AlikeMinimal(s[k], s[j], multiset(s));
    }
  }

  lemma AlikeMinimal(x: Scored, y: Scored, all: multiset<Scored>)
    requires Minimal(x, all) && y in all
    ensures Alike(x, y) ==> Minimal(y, all)
  {
    if Alike(x, y) {
      forall z | z in all ensures Better(y, z) {
        assert Better(x, z);
      }
    }
  }

  predicate ComesFirst(s: seq<Scored>, k: nat)
    requires k < |s|
  {
    forall j | 0 <= j < |s| && j != k :: Precedes(s, k, j)
  }

  predicate Precedes(s: seq<Scored>, k: nat, j: nat)
    requires k < |s| && j < |s|
  {
    Behind(s[k], s[j]) || (k < j && Alike(s[k], s[j]))
  }

  /** y loses against x. */
  predicate Behind(x: Scored, y: Scored)
  {
    y.offer.fee > x.offer.fee
    || (y.offer.fee == x.offer.fee && y.score > x.score)
    || (y.offer.fee == x.offer.fee && y.score == x.score && Rank(y.offer.channel) > Rank(x.offer.channel))
  }

  predicate Alike(x: Scored, y: Scored)
  {
    x.offer.fee == y.offer.fee && x.score == y.score && Rank(x.offer.channel) == Rank(y.offer.channel)
  }

  lemma {:induction false} FirstMinimalAt(s: seq<Scored>, all: multiset<Scored>) returns (k: nat)
    requires FirstMinimal(s, all).Some?
    ensures k < |s| && Some(s[k]) == FirstMinimal(s, all) && Minimal(s[k], all)
    ensures forall j | 0 <= j < k :: !Minimal(s[j], all)
  {
    if Minimal(s[0], all) {
      k := 0;
    } else {
      var rest := FirstMinimalAt(s[1..], all);
      k := rest + 1;
      forall j | 0 <= j < k ensures !Minimal(s[j], all) {
        if j > 0 { assert s[j] == s[1..][j - 1]; }
      }
    }
  }

  /** How a payment is to be retried, by its failure score. */
  lemma RetryStrategyBands(score: real)
    ensures RetryStrategy(score) == "none" <==> score < 0.1
    ensures RetryStrategy(score) == "immediate" <==> 0.1 <= score < 0.3
    ensures RetryStrategy(score) == "delayed" <==> 0.3 <= score < 0.6
    ensures RetryStrategy(score) == "next_day" <==> 0.6 <= score
  {
  }

  /** Only one position comes first. */
  lemma OneComesFirst(s: seq<Scored>, k: nat, r: nat)
    requires k < |s| && r < |s| && ComesFirst(s, k) && ComesFirst(s, r)
    ensures k == r
  {
    PrecedesOneWay(s, k, r);
  }

  lemma PrecedesOneWay(s: seq<Scored>, k: nat, r: nat)
    requires k < |s| && r < |s|
    ensures Precedes(s, k, r) ==> !Precedes(s, r, k)
  {
  }

  lemma FirstIs(s: seq<Scored>, k: nat)
    requires k < |s| && ComesFirst(s, k)
    ensures Recommended(s) == s[k]
  {
    RecommendedMeans(s);
    var r :| 0 <= r < |s| && s[r] == Recommended(s) && ComesFirst(s, r);
    OneComesFirst(s, k, r);
  }

  /** Without fees of its own an organisation is always recommended cash, if its cash payments never fail. */
  lemma CashByDefault(amount: real, histories: Histories)
    requires amount >= 0.0 && (histories("cash").Some? ==> histories("cash").value.failed == 0)
    ensures var s := ScoredFees(amount, histories, ChannelFees([]));
            s != [] && Recommended(s) == Scored(Offer("cash", 0.0, 0.0, RoundTo(amount, Cents)), 0.0)
  {
    var s := ScoredFees(amount, histories, DEFAULT_FEES);
    ScoredAt(amount, histories, DEFAULT_FEES, 3);
    CashIsFree(amount, histories);
    forall i | 0 <= i < |s| && i != 3 ensures Behind(s[3], s[i]) {
      ScoredAt(amount, histories, DEFAULT_FEES, i);
      BehindCash(amount, histories, i, s[3]);
    }
    FirstIs(s, 3);
  }

  lemma BehindCash(amount: real, histories: Histories, i: nat, cash: Scored)
    requires amount >= 0.0 && i < |DEFAULT_FEES| && i != 3
    requires cash.offer.channel == "cash" && cash.offer.fee == 0.0 && cash.score == 0.0
    ensures Behind(cash, ScoredOffer(amount, histories, OfferFor(amount, DEFAULT_FEES[i].0, DEFAULT_FEES[i].1)))
  {
    var (channel, pct) := DEFAULT_FEES[i];
    FeeNotNegative(amount, pct);
    ScoreIsProbability(amount, channel, histories(channel));
    DefaultRank(i);
  }

  lemma DefaultRank(i: nat)
    requires i < |DEFAULT_FEES| && i != 3
    ensures Rank(DEFAULT_FEES[i].0) > Rank("cash") && DEFAULT_FEES[i].1 >= 0.0
  {
  }

  lemma FeeNotNegative(amount: real, pct: real)
    requires amount >= 0.0 && pct >= 0.0
    ensures Fee(amount, pct) >= 0.0
  {
    FeeGrowsWithPercent(amount, 0.0, pct);
    RoundToExact(0.0, Cents);
  }

  lemma CashIsFree(amount: real, histories: Histories)
    requires histories("cash").Some? ==> histories("cash").value.failed == 0
    ensures ScoredOffer(amount, histories, OfferFor(amount, "cash", 0.0))
            == Scored(Offer("cash", 0.0, 0.0, RoundTo(amount, Cents)), 0.0)
  {
    RoundToExact(0.0, Cents);
    RoundToExact(0.0, Thousandths);
    ScoreValue(amount, "cash", histories("cash"), 0.0, 0.0);
  }
}
