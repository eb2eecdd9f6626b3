/** The `coupons` table and its one custom query, findCouponByName:
    `where name = ? order by id desc`, first row. */
module CouponRepository {
  import opened Wrappers

  /** A row of `coupons` (discount_amount, a floating-point column nobody
      reads, is left out). */
  datatype Coupon = Coupon(id: int, name: string, couponType: string, expiredDate: int, minimumMoney: int)

  /** Coupon ids are the table's primary key. */
  predicate UniqueIds(coupons: seq<Coupon>) {
    forall i, j :: 0 <= i < |coupons| && 0 <= j < |coupons| && coupons[i].id == coupons[j].id ==> i == j
  }

  /** findCouponByName: of the coupons named `name`, the one with the greatest
      id; none when no coupon has that name. */
  function FindCouponByName(coupons: seq<Coupon>, name: string): (r: Option<Coupon>)
    ensures r.None? <==> forall c :: c in coupons ==> c.name != name
    ensures r.Some? ==> r.value in coupons && r.value.name == name
    ensures r.Some? ==> forall c :: c in coupons && c.name == name ==> c.id <= r.value.id
    decreases |coupons|
  {
    if coupons == [] then None
    else
      var rest := FindCouponByName(coupons[1..], name);
      assert forall c :: c in coupons ==> c == coupons[0] || c in coupons[1..];
      if coupons[0].name != name then rest
      else if rest.Some? && rest.value.id > coupons[0].id then rest
      else Some(coupons[0])
  }

  /** The answer depends on the table's contents, not on the order in which
      the rows are stored: ids are unique, so "greatest id" names one row. */
  lemma FindCouponByNameIgnoresStorageOrder(a: seq<Coupon>, b: seq<Coupon>, name: string)
    requires multiset(a) == multiset(b)
    requires UniqueIds(a)
    ensures FindCouponByName(a, name) == FindCouponByName(b, name)
  {
    var ra, rb := FindCouponByName(a, name), FindCouponByName(b, name);
    assert forall c :: c in a <==> c in b by {
      forall c ensures c in a <==> c in b {
        assert c in a <==> c in multiset(a);
        assert c in b <==> c in multiset(b);
      }
    }
    if ra.Some? {
      assert rb.Some?;
      assert ra.value.id == rb.value.id;
      var i :| 0 <= i < |a| && a[i] == ra.value;
      var j :| 0 <= j < |a| && a[j] == rb.value;
      assert i == j;
    }
  }

  /** A name that only one coupon has yields that coupon. */
  lemma FindCouponByNameSingleMatch(coupons: seq<Coupon>, c: Coupon)
    requires c in coupons
    requires forall d :: d in coupons && d.name == c.name ==> d == c
    ensures FindCouponByName(coupons, c.name) == Some(c)
  {
  }
}
