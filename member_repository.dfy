/** MemberRepository's custom query findAllMembersByBirthday:
    `where DATE_FORMAT(birth_date, '%m-%d') = ?`, in table order. */
module MemberRepository {
  import opened Wrappers
  import opened Dates
  import opened Members

  /** DATE_FORMAT of a NULL birth date is NULL, which equals nothing. */
  predicate HasBirthday(m: Member, birthday: string) {
    m.birthDate.Some? && MonthDay(m.birthDate.value) == birthday
  }

  /** The members whose birth month and day, as `MM-dd`, equal `birthday`. */
  function FindAllMembersByBirthday(members: seq<Member>, birthday: string): (r: seq<Member>)
    ensures forall i :: 0 <= i < |r| ==> r[i] in members && HasBirthday(r[i], birthday)
    ensures forall i :: 0 <= i < |members| && HasBirthday(members[i], birthday) ==> members[i] in r
    ensures multiset(r) <= multiset(members)
    decreases |members|
  {
    if members == [] then []
    else
      assert members == [members[0]] + members[1..];
      var head := if HasBirthday(members[0], birthday) then [members[0]] else [];
      var rest := FindAllMembersByBirthday(members[1..], birthday);
      assert forall i :: 1 <= i < |members| ==> members[i] == members[1..][i - 1];
      assert multiset(head) <= multiset([members[0]]);
      head + rest
  }

  /** Only month and day take part: dates in different years with the same
      month and day match the same keys. */
  lemma BirthYearIgnored(a: Date, b: Date)
    requires a.month == b.month && a.day == b.day
    ensures MonthDay(a) == MonthDay(b)
  {
  }

  /** The key is read as a month and a day: a date matches only its own. */
  lemma MatchingKeyNamesTheDay(d: Date, birthday: string)
    requires MonthDay(d) == birthday
    ensures ParseMonthDay(birthday) == Some((d.month, d.day))
  {
    MonthDayRoundTrip(d);
  }

  /** `%m-%d` is zero-padded, so a key not five characters long, such as
      "2-5", matches nobody. */
  lemma {:induction false} UnpaddedKeyMatchesNobody(members: seq<Member>, birthday: string)
    requires |birthday| != 5
    ensures FindAllMembersByBirthday(members, birthday) == []
    decreases |members|
  {
    if members != [] {
      UnpaddedKeyMatchesNobody(members[1..], birthday);
    }
  }

  /** The member was born on this month and day, in any year. */
  predicate BornOn(m: Member, today: Date) {
    m.birthDate.Some? && m.birthDate.value.month == today.month && m.birthDate.value.day == today.day
  }

  /** Looking a day's `MM-dd` key up finds exactly the members born on that
      month and day. */
  lemma BirthdayKeyOfDay(m: Member, today: Date)
    ensures HasBirthday(m, MonthDay(today)) <==> BornOn(m, today)
  {
    if m.birthDate.Some? {
      var d := m.birthDate.value;
      if MonthDay(d) == MonthDay(today) {
        MonthDayRoundTrip(d);
        MonthDayRoundTrip(today);
      }
    }
  }
}
