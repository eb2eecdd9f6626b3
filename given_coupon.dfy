/** The `given_coupons` table: one row per grant of a coupon to a member,
    keyed by (coupon_no, member_no). The table is modelled by its key columns,
    in insertion order; created_at, a clock reading, is left out. */
module GivenCoupons {
  import opened Chunking
  import opened CouponRepository
  import opened Members

  /** GivenCoupon.Pk: equality is structural, as Lombok's @EqualsAndHashCode makes it. */
  datatype Pk = Pk(couponId: int, memberNo: int)

  /** The GivenCoupon entity; a datatype, since nothing changes it after construction. */
  datatype GivenCoupon = GivenCoupon(pk: Pk, coupon: Coupon, member: Member)

  /** `new GivenCoupon(coupon, member)`. */
  function NewGivenCoupon(coupon: Coupon, member: Member): (g: GivenCoupon)
    ensures g.pk.couponId == coupon.id && g.pk.memberNo == member.id
    ensures g.coupon == coupon && g.member == member
  {
    GivenCoupon(Pk(coupon.id, member.id), coupon, member)
  }

  /** Grants built from the same coupon for the same member have the same key,
      and their keys differ as soon as the coupon id or the member id does. */
  lemma SameKeyIffSameIds(c1: Coupon, m1: Member, c2: Coupon, m2: Member)
    ensures NewGivenCoupon(c1, m1).pk == NewGivenCoupon(c2, m2).pk <==> c1.id == c2.id && m1.id == m2.id
  {
  }

  /** GivenCouponDto, the row the JDBC writers bind by property name. */
  datatype GivenCouponDto = GivenCouponDto(memberNo: int, couponNo: int)

  /** The `given_coupons` key of a DTO: `insert ... (coupon_no, member_no) values (:couponNo, :memberNo, now())`. */
  function DtoRow(dto: GivenCouponDto): (k: Pk)
    ensures k.couponId == dto.couponNo && k.memberNo == dto.memberNo
  {
    Pk(dto.couponNo, dto.memberNo)
  }

  /** The key of a grant entity, as JPA persists it. */
  function EntityRow(g: GivenCoupon): (k: Pk)
    ensures g == NewGivenCoupon(g.coupon, g.member) ==> k.couponId == g.coupon.id && k.memberNo == g.member.id
  {
    g.pk
  }

  function Rows<T>(items: seq<T>, row: T -> Pk): (r: seq<Pk>)
    ensures |r| == |items|
    ensures forall i :: 0 <= i < |items| ==> r[i] == row(items[i])
  {
    seq(|items|, i requires 0 <= i < |items| => row(items[i]))
  }

  /** Two rows of a table never share a key (the primary key of `given_coupons`). */
  predicate DistinctKeys(t: seq<Pk>) {
    forall i, j :: 0 <= i < j < |t| ==> t[i] != t[j]
  }

  /** GivenCouponRepository.save, a JPA merge since the key is assigned: a key
      already stored updates that row and adds none, any other key adds one
      row at the end. */
  function Save(table: seq<Pk>, g: GivenCoupon): (t: seq<Pk>)
    ensures g.pk in table ==> t == table
    ensures g.pk !in table ==> t == table + [g.pk]
    ensures forall k :: k in t <==> k in table || k == g.pk
    ensures DistinctKeys(table) ==> DistinctKeys(t)
  {
    if EntityRow(g) in table then table else table + [EntityRow(g)]
  }

  /** The grants that pair `coupon` with each of `members`, in their order. */
  function Grants(coupon: Coupon, members: seq<Member>): (r: seq<GivenCoupon>)
    ensures |r| == |members|
    ensures forall i :: 0 <= i < |members| ==> r[i] == NewGivenCoupon(coupon, members[i])
  {
    seq(|members|, i requires 0 <= i < |members| => NewGivenCoupon(coupon, members[i]))
  }

  /** Saving each grant in turn. Its properties are the lemmas below. */
  function SaveAll(table: seq<Pk>, grants: seq<GivenCoupon>): (t: seq<Pk>)
    ensures |table| <= |t| <= |table| + |grants| && t[..|table|] == table
    decreases |grants|
  {
    if grants == [] then table
    else Save(SaveAll(table, grants[..|grants| - 1]), grants[|grants| - 1])
  }

  /** After saving, the table holds exactly the old keys and the grants'
      keys, and every row it gained is a grant's key not stored before. */
  lemma {:induction false} SaveAllKeys(table: seq<Pk>, grants: seq<GivenCoupon>)
    ensures var t := SaveAll(table, grants);
            && (forall k :: k in t <==> k in table || k in Rows(grants, EntityRow))
            && (forall i :: |table| <= i < |t| ==> t[i] in Rows(grants, EntityRow) && t[i] !in table)
    decreases |grants|
  {
    if grants != [] {
      var init := grants[..|grants| - 1];
      var last := grants[|grants| - 1];
      SaveAllKeys(table, init);
      assert Rows(grants, EntityRow) == Rows(init, EntityRow) + [last.pk];
    }
  }

  /** Saving never doubles a key. */
  lemma {:induction false} SaveAllDistinct(table: seq<Pk>, grants: seq<GivenCoupon>)
    requires DistinctKeys(table)
    ensures DistinctKeys(SaveAll(table, grants))
    decreases |grants|
  {
    if grants != [] {
      SaveAllDistinct(table, grants[..|grants| - 1]);
    }
  }

  /** Grants whose keys are distinct and not yet stored are appended, in order. */
  lemma {:induction false} SaveAllFresh(table: seq<Pk>, grants: seq<GivenCoupon>)
    requires DistinctKeys(Rows(grants, EntityRow))
    requires forall i :: 0 <= i < |grants| ==> grants[i].pk !in table
    ensures SaveAll(table, grants) == table + Rows(grants, EntityRow)
    decreases |grants|
  {
    if grants != [] {
      var init := grants[..|grants| - 1];
      var last := grants[|grants| - 1];
      assert Rows(grants, EntityRow) == Rows(init, EntityRow) + [last.pk];
      assert DistinctKeys(Rows(init, EntityRow)) by {
        forall i, j | 0 <= i < j < |init| ensures init[i].pk != init[j].pk {
          assert Rows(grants, EntityRow)[i] == init[i].pk && Rows(grants, EntityRow)[j] == init[j].pk;
        }
      }
      SaveAllFresh(table, init);
      assert last.pk !in Rows(init, EntityRow) by {
        forall i | 0 <= i < |init| ensures Rows(init, EntityRow)[i] != last.pk {
          assert Rows(grants, EntityRow)[i] == init[i].pk && Rows(grants, EntityRow)[|grants| - 1] == last.pk;
        }
      }
    }
  }

  /** Saving `a` and then `b` is saving `a + b`. */
  lemma {:induction false} SaveAllAppend(table: seq<Pk>, a: seq<GivenCoupon>, b: seq<GivenCoupon>)
    ensures SaveAll(SaveAll(table, a), b) == SaveAll(table, a + b)
    decreases |b|
  {
    if b == [] {
      assert a + b == a;
    } else {
      var init := b[..|b| - 1];
      assert (a + b)[..|a + b| - 1] == a + init;
      assert (a + b)[|a + b| - 1] == b[|b| - 1];
      SaveAllAppend(table, a, init);
    }
  }

  /** A JpaItemWriter handed each chunk in turn, merging every item of it. */
  function SaveChunks(table: seq<Pk>, chunks: seq<seq<GivenCoupon>>): (t: seq<Pk>)
    ensures t == SaveAll(table, Flatten(chunks))
    decreases |chunks|
  {
    if chunks == [] then table
    else
      FlattenAppend([chunks[0]], chunks[1..]);
      assert [chunks[0]] + chunks[1..] == chunks;
      assert Flatten([chunks[0]]) == chunks[0];
      SaveAllAppend(table, chunks[0], Flatten(chunks[1..]));
      SaveChunks(SaveAll(table, chunks[0]), chunks[1..])
  }

  /** A writer handed each chunk in turn, inserting one row per item. */
  function WriteChunks<T>(table: seq<Pk>, chunks: seq<seq<T>>, row: T -> Pk): (t: seq<Pk>)
    ensures t == table + Rows(Flatten(chunks), row)
    decreases |chunks|
  {
    if chunks == [] then table
    else
      var flat := Flatten(chunks[1..]);
      FlattenAppend([chunks[0]], chunks[1..]);
      assert [chunks[0]] + chunks[1..] == chunks;
      assert Flatten([chunks[0]]) == chunks[0];
      assert Rows(chunks[0] + flat, row) == Rows(chunks[0], row) + Rows(flat, row);
      WriteChunks(table + Rows(chunks[0], row), chunks[1..], row)
  }

  /** Every row grants `couponId` to a member that has grade `gradeNo`, and
      every such member has a row. */
  ghost predicate GrantsCover(rows: seq<Pk>, couponId: int, members: seq<Member>, gradeNo: int)
    reads members
  {
    && (forall i :: 0 <= i < |rows| ==> rows[i].couponId == couponId && HasMemberWithGrade(members, gradeNo, rows[i].memberNo))
    && (forall j :: 0 <= j < |members| && members[j].memberGrade.id == gradeNo ==> Pk(couponId, members[j].id) in rows)
  }

  /** Rows in strictly ascending member order: no member gets two. */
  predicate AscendingMembers(rows: seq<Pk>) {
    forall i, j :: 0 <= i < j < |rows| ==> rows[i].memberNo < rows[j].memberNo
  }
}
