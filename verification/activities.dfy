/**
 * The activity log record (activities/models.py): its choice fields, the
 * field validators, and the default listing order.
 */
module Activities {
  import opened Common

  /** The nine kinds of activity a user can log. */
  datatype ActivityType = Running | Cycling | Swimming | Walking | Gym | Yoga | Sports | Hiking | Other

  /** How hard the session was; a new activity is `Moderate` unless told otherwise. */
  datatype Intensity = Low | Moderate | High

  const DefaultIntensity: Intensity := Moderate

  /** The stored value of each activity type. */
  function ActivityTypeName(t: ActivityType): string
  {
    match t
    case Running => "running"
    case Cycling => "cycling"
    case Swimming => "swimming"
    case Walking => "walking"
    case Gym => "gym"
    case Yoga => "yoga"
    case Sports => "sports"
    case Hiking => "hiking"
    case Other => "other"
  }

  /** The activity type stored as `s`, if `s` is one of the listed choices. */
  function ParseActivityType(s: string): (r: Option<ActivityType>)
    ensures r.Some? ==> ActivityTypeName(r.value) == s
  {
    if s == "running" then Some(Running)
    else if s == "cycling" then Some(Cycling)
    else if s == "swimming" then Some(Swimming)
    else if s == "walking" then Some(Walking)
    else if s == "gym" then Some(Gym)
    else if s == "yoga" then Some(Yoga)
    else if s == "sports" then Some(Sports)
    else if s == "hiking" then Some(Hiking)
    else if s == "other" then Some(Other)
    else None
  }

  /** Every activity type is read back from its stored value. */
  lemma ActivityTypeRoundTrip(t: ActivityType)
    ensures ParseActivityType(ActivityTypeName(t)) == Some(t)
  {
  }

  const ActivityTypeChoices: seq<string> :=
    ["running", "cycling", "swimming", "walking", "gym", "yoga", "sports", "hiking", "other"]

  /** A string is accepted exactly when it is one of the nine listed choices, and the choices are distinct. */
  lemma ActivityTypeChoicesExact(s: string)
    ensures ParseActivityType(s).Some? <==> s in ActivityTypeChoices
    ensures |ActivityTypeChoices| == 9 && Distinct(ActivityTypeChoices)
  {
  }

  function IntensityName(i: Intensity): string
  {
    match i
    case Low => "low"
    case Moderate => "moderate"
    case High => "high"
  }

  function ParseIntensity(s: string): (r: Option<Intensity>)
    ensures r.Some? ==> IntensityName(r.value) == s
  {
    if s == "low" then Some(Low)
    else if s == "moderate" then Some(Moderate)
    else if s == "high" then Some(High)
    else None
  }

  /** Every intensity is read back from its stored value; the default is the stored value "moderate". */
  lemma IntensityRoundTrip(i: Intensity)
    ensures ParseIntensity(IntensityName(i)) == Some(i)
    ensures IntensityName(DefaultIntensity) == "moderate"
  {
  }

  /**
   * One logged session. Calories are whole numbers here (the store keeps a
   * float); a missing value is `None`. Distance is carried but never
   * computed with. `activityDate` is a point in time, as an integer.
   */
  datatype Activity = Activity(
    id: nat,
    user: UserId,
    activityType: ActivityType,
    title: string,
    description: string,
    durationMinutes: int,
    caloriesBurned: Option<int>,
    distanceKm: Option<real>,
    intensity: Intensity,
    location: string,
    activityDate: int)

  const MaxTitleLength := 200
  const MaxLocationLength := 200

  /** What the field validators, the non-blank title and the length limits of the model demand of a stored activity. */
  predicate Valid(a: Activity)
  {
    && a.durationMinutes >= 1
    && (a.caloriesBurned.Some? ==> a.caloriesBurned.value >= 0)
    && 0 < |a.title| <= MaxTitleLength
    && |a.location| <= MaxLocationLength
  }

  predicate AllValid(acts: seq<Activity>)
  {
    forall i :: 0 <= i < |acts| ==> Valid(acts[i])
  }

  /** The ways a submitted activity can fail validation. */
  datatype FieldError = TitleBlank | TitleTooLong | DurationBelowMinimum | NegativeCalories | LocationTooLong

  /** The error `e` alone when `broken` holds, and nothing otherwise. */
  function Flag(broken: bool, e: FieldError): (r: seq<FieldError>)
    ensures broken ==> r == [e]
    ensures !broken ==> r == []
    ensures forall x :: x in r <==> broken && x == e
  {
    if broken then [e] else []
  }

  /** Field validation: collects one error per offending field, in field order. */
  function Validate(a: Activity): (errs: seq<FieldError>)
    ensures errs == [] <==> Valid(a)
    ensures TitleBlank in errs <==> |a.title| == 0
    ensures TitleTooLong in errs <==> |a.title| > MaxTitleLength
    ensures DurationBelowMinimum in errs <==> a.durationMinutes < 1
    ensures NegativeCalories in errs <==> a.caloriesBurned.Some? && a.caloriesBurned.value < 0
    ensures LocationTooLong in errs <==> |a.location| > MaxLocationLength
    ensures Distinct(errs)
  {
    var blank := Flag(|a.title| == 0, TitleBlank);
    var long := Flag(|a.title| > MaxTitleLength, TitleTooLong);
    var short := Flag(a.durationMinutes < 1, DurationBelowMinimum);
    var calories := Flag(a.caloriesBurned.Some? && a.caloriesBurned.value < 0, NegativeCalories);
    var location := Flag(|a.location| > MaxLocationLength, LocationTooLong);
    DistinctAppend(blank, long);
    DistinctAppend(blank + long, short);
    DistinctAppend(blank + long + short, calories);
    DistinctAppend(blank + long + short + calories, location);
    blank + long + short + calories + location
  }

  /** The default listing: most recent `activityDate` first. */
  function ListActivities(acts: seq<Activity>): (r: seq<Activity>)
    ensures multiset(r) == multiset(acts)
    ensures forall i, j :: 0 <= i < j < |r| ==> r[i].activityDate >= r[j].activityDate
  {
    var r := SortBy(acts, (a: Activity) => -a.activityDate);
    assert forall i, j :: 0 <= i < j < |r| ==> -r[i].activityDate <= -r[j].activityDate;
    r
  }

  /** An activity dated strictly later than every other one is listed first. */
  lemma MostRecentListedFirst(acts: seq<Activity>, recent: Activity)
    requires recent in acts
    requires forall a :: a in acts && a != recent ==> a.activityDate < recent.activityDate
    ensures |ListActivities(acts)| > 0 && ListActivities(acts)[0] == recent
  {
    var r := ListActivities(acts);
    assert recent in multiset(acts);
    assert recent in r;
    assert r[0] in multiset(acts);
  }
}
