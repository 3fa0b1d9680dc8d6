/** The profile card of frontend/src/components/UserProfile.js: the age shown for a birth
    date, and the edit form's initial values. The current date is a parameter; parsing a date
    string is not modelled (a birth date arrives as a calendar date or not at all). */
module UserProfile {
  import opened Common
  import opened Tables
  import Users

  /** `calculateAge`: no birth date gives no age; otherwise the difference of the years, one
      less while this year's birthday (month, then day) is still ahead. */
  function CalculateAge(birth: Option<Date>, today: Date): (r: Option<int>)
    ensures birth.None? <==> r.None?
    ensures r.Some? ==> r.value == today.year - birth.value.year || r.value == today.year - birth.value.year - 1
    ensures r.Some? ==>
      (r.value == today.year - birth.value.year - 1 <==> BirthdayAhead(birth.value, today))
  {
    match birth
    case None => None
    case Some(b) =>
      var age := today.year - b.year;
      Some(if BirthdayAhead(b, today) then age - 1 else age)
  }

  /** `monthDiff < 0 || (monthDiff === 0 && today.getDate() < birth.getDate())`. */
  predicate BirthdayAhead(birth: Date, today: Date) {
    today.month < birth.month || (today.month == birth.month && today.day < birth.day)
  }

  /** On one's birthday the age is the full year difference. */
  lemma AgeOnBirthday(birth: Date, year: int)
    ensures CalculateAge(Some(birth), Date(year, birth.month, birth.day)) == Some(year - birth.year)
  {
  }

  /** Between two dates of one year the age grows by at most one. */
  lemma AgeGrowsByOne(birth: Date, earlier: Date, later: Date)
    requires earlier.year == later.year
    ensures CalculateAge(Some(birth), later).value - CalculateAge(Some(birth), earlier).value <= 1
    ensures CalculateAge(Some(birth), earlier).value - CalculateAge(Some(birth), later).value <= 1
  {
  }

  /** A birth date the backend accepts for complete-profile (a year difference of 13 to 120)
      is shown as an age of 12 to 120. */
  lemma AcceptedBirthDateAge(fullName: Option<string>, dob: Date, gender: Option<string>, today: Date)
    requires Users.CompleteValid(fullName, Some(Users.Iso(dob)), gender, today.year)
    ensures 12 <= CalculateAge(Some(dob), today).value <= 120
  {
  }

  /** The user object the card is given. */
  datatype CardUser = CardUser(
    username: string,
    fullName: Option<string>,
    dateOfBirth: Option<string>,
    gender: Option<string>,
    displayName: Option<string>)

  datatype FormData = FormData(fullName: string, dateOfBirth: string, gender: string, displayName: string)

  /** The form's first values: empty strings for missing fields, the date part of an ISO
      timestamp (before `T`), and the username when there is no display name. */
  function InitForm(u: CardUser): (r: FormData)
    ensures r.fullName == (if Present(u.fullName) then u.fullName.value else "")
    ensures r.gender == (if Present(u.gender) then u.gender.value else "")
    ensures r.displayName == (if Present(u.displayName) then u.displayName.value else u.username)
    ensures !Present(u.dateOfBirth) ==> r.dateOfBirth == ""
    ensures Present(u.dateOfBirth) ==>
      'T' !in r.dateOfBirth && |r.dateOfBirth| <= |u.dateOfBirth.value|
      && r.dateOfBirth == u.dateOfBirth.value[..|r.dateOfBirth|]
      && (|r.dateOfBirth| < |u.dateOfBirth.value| ==> u.dateOfBirth.value[|r.dateOfBirth|] == 'T')
  {
    FormData(OrElse(u.fullName, ""),
             if Present(u.dateOfBirth) then Before(u.dateOfBirth.value, 'T') else "",
             OrElse(u.gender, ""),
             OrElse(u.displayName, u.username))
  }

  /** A stored timestamp `<date>T<time>` puts exactly `<date>` in the form. */
  lemma {:induction false} FormDateOfTimestamp(date: string, time: string)
    requires 'T' !in date
    ensures Before(date + "T" + time, 'T') == date
    decreases |date|
  {
    if date == [] {
      assert (date + "T" + time)[0] == 'T';
    } else {
      assert (date + "T" + time)[1..] == date[1..] + "T" + time;
      FormDateOfTimestamp(date[1..], time);
    }
  }
}
