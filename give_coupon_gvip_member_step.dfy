/** GiveCouponGVIPMemberStep: the fixed GVIP-coupon step over JPA entities. */
module GiveCouponGVipMemberStep {
  import opened Wrappers
  import opened Chunking
  import opened CouponNames
  import opened CouponRepository
  import opened Exceptions
  import opened Members
  import opened GivenCoupons

  const CHUNK_SIZE: nat := 5
  const GVIP_GRADE_NO: int := 1

  const Config: StepConfig := StepConfig("gVipGivenCouponMemberStep", CHUNK_SIZE, CHUNK_SIZE, true)

  /** gVIPMemberReader: "SELECT m FROM Member m WHERE m.memberGrade = 1". The
      query has no ORDER BY, so the rows come in table order: the model keeps
      the members' order and claims membership only. */
  function GVipMemberReader(members: seq<Member>): (r: seq<Member>)
    reads members
    ensures forall i :: 0 <= i < |r| ==> r[i] in members && r[i].memberGrade.id == GVIP_GRADE_NO
    ensures forall i :: 0 <= i < |members| && members[i].memberGrade.id == GVIP_GRADE_NO ==> members[i] in r
    decreases |members|
  {
    if members == [] then []
    else
      var rest := GVipMemberReader(members[1..]);
      assert forall i :: 1 <= i < |members| ==> members[i] == members[1..][i - 1];
      (if members[0].memberGrade.id == GVIP_GRADE_NO then [members[0]] else []) + rest
  }

  /** The reader returns each grade-1 member as often as it is stored, and
      no other, so it returns no more rows than the table holds. */
  lemma {:induction false} GVipMemberReaderCounts(members: seq<Member>)
    ensures var r := GVipMemberReader(members);
            && multiset(r) <= multiset(members)
            && forall i :: 0 <= i < |members| ==>
                 multiset(r)[members[i]] == if members[i].memberGrade.id == GVIP_GRADE_NO then multiset(members)[members[i]] else 0
    decreases |members|
  {
    if members != [] {
      var tail := members[1..];
      var head := if members[0].memberGrade.id == GVIP_GRADE_NO then [members[0]] else [];
      var r := GVipMemberReader(members);
      var rt := GVipMemberReader(tail);
      GVipMemberReaderCounts(tail);
      assert members == [members[0]] + tail;
      assert r == head + rt;
      assert multiset(r) == multiset(head) + multiset(rt);
      assert multiset(members) == multiset([members[0]]) + multiset(tail);
      forall i | 0 <= i < |members|
        ensures multiset(r)[members[i]] == if members[i].memberGrade.id == GVIP_GRADE_NO then multiset(members)[members[i]] else 0
      {
        var x := members[i];
        if x in tail {
          var j :| 0 <= j < |tail| && tail[j] == x;
          assert multiset(rt)[tail[j]] == if tail[j].memberGrade.id == GVIP_GRADE_NO then multiset(tail)[tail[j]] else 0;
        } else {
          assert multiset(tail)[x] == 0;
          assert multiset(rt)[x] == 0;
        }
      }
    }
  }

  /** gVipGivenCouponProcessor: the GVIP coupon, or the lookup's failure. */
  function GVipGivenCouponProcessor(coupons: seq<Coupon>): (r: Result<Coupon, BatchError>)
    ensures r.Failure? <==> FindCouponByName(coupons, DisplayName(GVIP)).None?
    ensures r.Failure? ==> r.error == CouponNotFound
    ensures r.Success? ==> r.value == FindCouponByName(coupons, DisplayName(GVIP)).value
    ensures r.Success? ==> r.value in coupons && r.value.name == "GVIP 쿠폰"
  {
    match FindCouponByName(coupons, DisplayName(GVIP))
    case None => Failure(CouponNotFound)
    case Some(coupon) => Success(coupon)
  }

  /** Every grant pairs `coupon` with a grade-1 member of the table, keyed by
      their ids, and every grade-1 member has a grant. */
  ghost predicate GrantsToGVipMembers(grants: seq<GivenCoupon>, coupon: Coupon, members: seq<Member>)
    reads members
  {
    && (forall i :: 0 <= i < |grants| ==>
          && grants[i].coupon == coupon
          && grants[i].member in members
          && grants[i].member.memberGrade.id == GVIP_GRADE_NO
          && grants[i].pk == Pk(coupon.id, grants[i].member.id))
    && (forall j :: 0 <= j < |members| && members[j].memberGrade.id == GVIP_GRADE_NO ==>
          exists i :: 0 <= i < |grants| && grants[i].member == members[j])
  }

  /** The step: one new GivenCoupon entity per grade-1 member, each pairing
      the GVIP coupon with that member. */
  function GVipCouponStep(members: seq<Member>, coupons: seq<Coupon>): (r: Result<seq<seq<GivenCoupon>>, BatchError>)
    reads members
    ensures r.Failure? <==> FindCouponByName(coupons, DisplayName(GVIP)).None?
    ensures r.Failure? ==> r.error == CouponNotFound
    ensures r.Success? ==> forall c :: 0 <= c < |r.value| ==> 0 < |r.value[c]| <= CHUNK_SIZE
    ensures r.Success? ==> GrantsToGVipMembers(Flatten(r.value), FindCouponByName(coupons, DisplayName(GVIP)).value, members)
    ensures r.Success? ==>
              var items := GVipMemberReader(members);
              var coupon := FindCouponByName(coupons, DisplayName(GVIP)).value;
              && |Flatten(r.value)| == |items|
              && forall i :: 0 <= i < |items| ==> Flatten(r.value)[i] == NewGivenCoupon(coupon, items[i])
  {
    match GVipGivenCouponProcessor(coupons)
    case Failure(e) => Failure(e)
    case Success(coupon) =>
      var items := GVipMemberReader(members);
      var out := seq(|items|, i requires 0 <= i < |items| => NewGivenCoupon(coupon, items[i]));
      forall j | 0 <= j < |members| && members[j].memberGrade.id == GVIP_GRADE_NO
        ensures exists i :: 0 <= i < |out| && out[i].member == members[j]
      {
        var i :| 0 <= i < |items| && items[i] == members[j];
        assert out[i].member == members[j];
      }
      Success(Chunks(out, CHUNK_SIZE))
  }

  /** gVIPMemberWriter merges each grant, chunk by chunk: the old rows stay,
      every grade-1 member holds the GVIP coupon afterwards, every row the
      table gained is a grade-1 member's, and no key is doubled. A member who
      already held the coupon adds no row. */
  lemma GVipWriterGrantsEveryGVipMember(chunks: seq<seq<GivenCoupon>>, coupon: Coupon, members: seq<Member>, table: seq<Pk>)
    requires GrantsToGVipMembers(Flatten(chunks), coupon, members)
    ensures var t := SaveChunks(table, chunks);
            && |t| >= |table| && t[..|table|] == table
            && (forall i :: |table| <= i < |t| ==>
                  t[i].couponId == coupon.id && HasMemberWithGrade(members, GVIP_GRADE_NO, t[i].memberNo))
            && (forall j :: 0 <= j < |members| && members[j].memberGrade.id == GVIP_GRADE_NO ==>
                  Pk(coupon.id, members[j].id) in t)
            && (DistinctKeys(table) ==> DistinctKeys(t))
  {
    var grants := Flatten(chunks);
    var keys := Rows(grants, EntityRow);
    var t := SaveChunks(table, chunks);
    SaveAllKeys(table, grants);
    forall i | |table| <= i < |t|
      ensures t[i].couponId == coupon.id && HasMemberWithGrade(members, GVIP_GRADE_NO, t[i].memberNo)
    {
      assert t[i] in keys;
      var g :| 0 <= g < |keys| && keys[g] == t[i];
      var k :| 0 <= k < |members| && members[k] == grants[g].member;
    }
    forall j | 0 <= j < |members| && members[j].memberGrade.id == GVIP_GRADE_NO
      ensures Pk(coupon.id, members[j].id) in t
    {
      var i :| 0 <= i < |grants| && grants[i].member == members[j];
      assert keys[i] == grants[i].pk;
      assert keys[i] in keys;
    }
    if DistinctKeys(table) {
      SaveAllDistinct(table, grants);
    }
  }

  /** When no grant's key is stored yet and the keys are distinct, the
      writer appends exactly one row per grant, and the new rows grant the
      GVIP coupon to exactly the grade-1 members. */
  lemma GVipWriterAppendsFreshGrants(chunks: seq<seq<GivenCoupon>>, coupon: Coupon, members: seq<Member>, table: seq<Pk>)
    requires GrantsToGVipMembers(Flatten(chunks), coupon, members)
    requires DistinctKeys(Rows(Flatten(chunks), EntityRow))
    requires forall i :: 0 <= i < |Flatten(chunks)| ==> Flatten(chunks)[i].pk !in table
    ensures var t := SaveChunks(table, chunks);
            && |t| == |table| + |Flatten(chunks)|
            && GrantsCover(t[|table|..], coupon.id, members, GVIP_GRADE_NO)
  {
    var grants := Flatten(chunks);
    var t := SaveChunks(table, chunks);
    SaveAllFresh(table, grants);
    assert t[|table|..] == Rows(grants, EntityRow);
    GVipGrantKeysCover(grants, coupon, members);
  }

  /** The keys of grants to the GVIP members cover exactly those members. */
  lemma GVipGrantKeysCover(grants: seq<GivenCoupon>, coupon: Coupon, members: seq<Member>)
    requires GrantsToGVipMembers(grants, coupon, members)
    ensures GrantsCover(Rows(grants, EntityRow), coupon.id, members, GVIP_GRADE_NO)
  {
    var keys := Rows(grants, EntityRow);
    forall i | 0 <= i < |keys|
      ensures keys[i].couponId == coupon.id && HasMemberWithGrade(members, GVIP_GRADE_NO, keys[i].memberNo)
    {
      var k :| 0 <= k < |members| && members[k] == grants[i].member;
    }
    forall j | 0 <= j < |members| && members[j].memberGrade.id == GVIP_GRADE_NO
      ensures Pk(coupon.id, members[j].id) in keys
    {
      var i :| 0 <= i < |grants| && grants[i].member == members[j];
      assert keys[i] == grants[i].pk;
    }
  }
}
