/** The campaign record and its date-derived status
    (models/campaign.py). */
module CampaignModel {
  import opened Dates

  /** `CampaignStatus`: the three values the `status` column takes. */
  datatype Status = Scheduled | Active | Expired

  function StatusValue(s: Status): string {
    match s
    case Scheduled => "scheduled"
    case Active => "active"
    case Expired => "expired"
  }

  /** Position of a status in the life cycle scheduled -> active -> expired. */
  function Stage(s: Status): nat {
    match s
    case Scheduled => 0
    case Active => 1
    case Expired => 2
  }

  datatype Campaign = Campaign(
    id: int,
    name: string,
    startDate: Date,
    endDate: Date,
    status: Status,
    folderPath: string,
    userId: int)

  /** The status `update_status` assigns on `today`. The start test comes
      first, so a campaign that has not started is scheduled even when its
      end date (before its start) has already passed. */
  function StatusOn(start: Date, end: Date, today: Date): (s: Status)
    ensures s == Scheduled <==> Before(today, start)
    ensures s == Expired <==> AtMost(start, today) && Before(end, today)
    ensures s == Active <==> AtMost(start, today) && AtMost(today, end)
  {
    if Before(today, start) then Scheduled
    else if Before(end, today) then Expired
    else Active
  }

  /** `Campaign.update_status(current_date)`: only `status` is assigned. */
  function UpdateStatus(c: Campaign, today: Date): (c': Campaign)
    ensures c'.status == StatusOn(c.startDate, c.endDate, today)
    ensures c'.id == c.id && c'.name == c.name && c'.userId == c.userId
    ensures c'.startDate == c.startDate && c'.endDate == c.endDate
    ensures c'.folderPath == c.folderPath
  {
    c.(status := StatusOn(c.startDate, c.endDate, today))
  }

  /** Recomputing the status a second time on the same date changes nothing. */
  lemma UpdateStatusIdempotent(c: Campaign, today: Date)
    ensures UpdateStatus(UpdateStatus(c, today), today) == UpdateStatus(c, today)
  {
  }

  /** A later date never moves a campaign back in its life cycle. This holds
      even for a campaign whose end precedes its start. */
  lemma StatusMonotone(start: Date, end: Date, d1: Date, d2: Date)
    requires AtMost(d1, d2)
    ensures Stage(StatusOn(start, end, d1)) <= Stage(StatusOn(start, end, d2))
  {
    BeforeIsStrictTotalOrder(start, d1, d2);
    BeforeIsStrictTotalOrder(end, d1, d2);
  }

  /** A campaign whose end precedes its start, looked at between the two
      dates, is scheduled although its end has passed. */
  lemma ScheduledTakesPrecedence()
    ensures var start, end, today := Date(2025, 6, 10), Date(2025, 6, 1), Date(2025, 6, 5);
      Before(end, today) && StatusOn(start, end, today) == Scheduled
  {
  }
}
