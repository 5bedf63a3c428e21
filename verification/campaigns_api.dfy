/** The campaign routes (api/campaigns.py) over an abstract campaign table.
    Each handler returns its outcome and the session state it leaves; the
    activity-log wrapper around create, update and delete commits that
    state (see `Auth.LogActivity`), which is why the status recomputed during
    serialisation is part of it. */
module CampaignsApi {
  import opened Values
  import opened Dates
  import opened CampaignModel
  import opened FileNames
  import opened Http
  import Uploads

  type CampaignStore = map<int, Campaign>

  /** Every stored campaign sits under its own id and has real dates. */
  predicate WellFormed(store: CampaignStore) {
    forall id :: id in store ==>
      store[id].id == id && Valid(store[id].startDate) && Valid(store[id].endDate)
  }

  /** The JSON object `_serialize_campaign` returns. */
  datatype CampaignView = CampaignView(id: int, name: string, startDate: string, endDate: string, status: string)

  /** `_serialize_campaign(campaign)`: recomputes the status for `today`
      (which also updates the campaign itself) and renders both dates in
      ISO form. */
  function Serialize(c: Campaign, today: Date): (r: (Campaign, CampaignView))
    requires Valid(c.startDate) && Valid(c.endDate)
    ensures r.0 == UpdateStatus(c, today)
    ensures r.1.id == c.id && r.1.name == c.name
    ensures r.1.status == StatusValue(StatusOn(c.startDate, c.endDate, today))
    ensures FromIsoFormat(r.1.startDate) == Some(c.startDate)
    ensures FromIsoFormat(r.1.endDate) == Some(c.endDate)
  {
    IsoRoundTrip(c.startDate);
    IsoRoundTrip(c.endDate);
    var c' := UpdateStatus(c, today);
    (c', CampaignView(c'.id, c'.name, IsoFormat(c'.startDate), IsoFormat(c'.endDate), StatusValue(c'.status)))
  }

  /** `list_campaigns`: the current user's campaigns, by id. The query has
      no ORDER BY, so the model does not fix an order. */
  function ListCampaigns(store: CampaignStore, userId: int, today: Date): (r: map<int, CampaignView>)
    requires WellFormed(store)
    ensures forall id :: id in r <==> id in store && store[id].userId == userId
    ensures forall id :: id in r ==> r[id] == Serialize(store[id], today).1
  {
    map id | id in store && store[id].userId == userId :: Serialize(store[id], today).1
  }

  /** The request body; a key that is absent is `None`. */
  datatype CampaignPayload = CampaignPayload(name: Option<string>, startDate: Option<string>, endDate: Option<string>)

  /** Python truthiness of an optional string field. */
  predicate Given(field: Option<string>) {
    field.Some? && field.value != ""
  }

  /** `create_campaign`. `freshId` is the id the database assigns. */
  function CreateCampaign(
    store: CampaignStore, body: CampaignPayload, userId: int,
    uploadFolder: string, freshId: int, today: Date): (r: (Outcome<CampaignView>, CampaignStore))
    requires freshId !in store
  {
    if !(Given(body.name) && Given(body.startDate) && Given(body.endDate)) then
      (Returned(Reply(400, "error", "Missing fields")), store)
    else
      match FromIsoFormat(body.startDate.value)
      case None => (Raised("ValueError"), store)
      case Some(start) =>
        match FromIsoFormat(body.endDate.value)
        case None => (Raised("ValueError"), store)
        case Some(end) =>
          var c := Campaign(freshId, body.name.value, start, end, Scheduled,
                            CampaignFolder(uploadFolder, start), userId);
          var (c', view) := Serialize(c, today);
          (Returned(Response(201, Payload(view))), store[freshId := c'])
  }

  /** Create stores nothing unless all three fields are truthy and both
      dates parse; a stored campaign belongs to the caller, lives in the
      folder named after its start date and is answered with 201. */
  lemma CreateCampaignSpec(
    store: CampaignStore, body: CampaignPayload, userId: int,
    uploadFolder: string, freshId: int, today: Date)
    requires freshId !in store
    ensures var (out, store') := CreateCampaign(store, body, userId, uploadFolder, freshId, today);
      && (!Given(body.name) || !Given(body.startDate) || !Given(body.endDate) ==>
            out == Returned(Reply(400, "error", "Missing fields")) && store' == store)
      && (out.Raised? ==> store' == store)
      && (store' != store ==>
            && out.Returned? && out.response.status == 201
            && store'.Keys == store.Keys + {freshId}
            && (forall id :: id in store ==> store'[id] == store[id])
            && var c := store'[freshId];
            && c.userId == userId && c.name == body.name.value
            && Some(c.startDate) == FromIsoFormat(body.startDate.value)
            && Some(c.endDate) == FromIsoFormat(body.endDate.value)
            && c.folderPath == CampaignFolder(uploadFolder, c.startDate)
            && out.response.body == Payload(Serialize(c, today).1))
      && (Given(body.name) && Given(body.startDate) && Given(body.endDate)
          && FromIsoFormat(body.startDate.value).Some? && FromIsoFormat(body.endDate.value).Some?
          ==> freshId in store')
  {
  }

  /** No ordering check: a campaign that ends before it starts is accepted,
      whatever the two dates. */
  lemma CreateAcceptsReversedDates(
    store: CampaignStore, name: string, start: Date, end: Date,
    userId: int, uploadFolder: string, freshId: int, today: Date)
    requires freshId !in store && name != ""
    requires Valid(start) && Valid(end) && Before(end, start)
    ensures var body := CampaignPayload(Some(name), Some(IsoFormat(start)), Some(IsoFormat(end)));
      var (out, store') := CreateCampaign(store, body, userId, uploadFolder, freshId, today);
      && out.Returned? && out.response.status == 201 && freshId in store'
      && store'[freshId].startDate == start && store'[freshId].endDate == end
  {
    IsoRoundTrip(start);
    IsoRoundTrip(end);
  }

  /** A created campaign shows up in its owner's list and in nobody else's. */
  lemma CreatedCampaignListedForOwnerOnly(
    store: CampaignStore, body: CampaignPayload, userId: int,
    uploadFolder: string, freshId: int, today: Date, viewer: int)
    requires WellFormed(store) && freshId !in store
    ensures var (out, store') := CreateCampaign(store, body, userId, uploadFolder, freshId, today);
      out.Returned? && out.response.status == 201 ==>
        && WellFormed(store')
        && (freshId in ListCampaigns(store', viewer, today) <==> viewer == userId)
  {
    CreateCampaignSpec(store, body, userId, uploadFolder, freshId, today);
    var (out, store') := CreateCampaign(store, body, userId, uploadFolder, freshId, today);
    if out.Returned? && out.response.status == 201 {
      assert store'[freshId].id == freshId;
    }
  }

  /** `update_campaign`: only the owner may update; a key absent from the
      body keeps the old value; the folder is never moved. */
  function UpdateCampaign(
    store: CampaignStore, campaignId: int, body: CampaignPayload, userId: int, today: Date)
    : (r: (Outcome<CampaignView>, CampaignStore))
    requires WellFormed(store)
  {
    if campaignId !in store then (Aborted(404), store)
    else
      var c := store[campaignId];
      if c.userId != userId then (Returned(Reply(403, "error", "Forbidden")), store)
      else
        var name := if body.name.Some? then body.name.value else c.name;
        var start := if body.startDate.Some? then FromIsoFormat(body.startDate.value) else Some(c.startDate);
        var end := if body.endDate.Some? then FromIsoFormat(body.endDate.value) else Some(c.endDate);
        if start.None? || end.None? then (Raised("ValueError"), store)
        else
          var (c', view) := Serialize(c.(name := name, startDate := start.value, endDate := end.value), today);
          (Returned(Response(200, Payload(view))), store[campaignId := c'])
  }

  /** Update answers 404, then 403, then either raises on a date that does
      not parse or succeeds with 200; on success the body's keys replace the
      old values and absent keys keep them. */
  lemma UpdateCampaignSpec(
    store: CampaignStore, campaignId: int, body: CampaignPayload, userId: int, today: Date)
    requires WellFormed(store)
    ensures var (out, store') := UpdateCampaign(store, campaignId, body, userId, today);
      && (campaignId !in store ==> out == Aborted(404) && store' == store)
      && (campaignId in store && store[campaignId].userId != userId ==>
            out == Returned(Reply(403, "error", "Forbidden")) && store' == store)
      && (out.Raised? ==> store' == store)
      && (campaignId in store && store[campaignId].userId == userId ==>
            && (out.Raised? <==>
                  (body.startDate.Some? && FromIsoFormat(body.startDate.value).None?)
                  || (body.endDate.Some? && FromIsoFormat(body.endDate.value).None?))
            && (out.Raised? ==> out == Raised("ValueError"))
            && (!out.Raised? ==> out.Returned? && out.response.status == 200))
      && store'.Keys == store.Keys
      && (forall id :: id in store && id != campaignId ==> store'[id] == store[id])
      && (campaignId in store && out.Returned? && out.response.status == 200 ==>
            var (c, c') := (store[campaignId], store'[campaignId]);
            && c'.folderPath == c.folderPath && c'.userId == c.userId && c'.id == c.id
            && c'.name == (if body.name.Some? then body.name.value else c.name)
            && (body.startDate.None? ==> c'.startDate == c.startDate)
            && (body.startDate.Some? ==> Some(c'.startDate) == FromIsoFormat(body.startDate.value))
            && (body.endDate.None? ==> c'.endDate == c.endDate)
            && (body.endDate.Some? ==> Some(c'.endDate) == FromIsoFormat(body.endDate.value))
            && c'.status == StatusOn(c'.startDate, c'.endDate, today))
      && WellFormed(store')
  {
  }

  /** Moving the start date does not move the folder: the folder keeps the
      old start date's name. */
  lemma UpdateKeepsOldFolder(store: CampaignStore, campaignId: int, userId: int, today: Date, uploadFolder: string)
    requires WellFormed(store) && campaignId in store
    requires store[campaignId].userId == userId
    requires store[campaignId].startDate == Date(2025, 6, 1)
    requires store[campaignId].folderPath == CampaignFolder(uploadFolder, Date(2025, 6, 1))
    ensures var body := CampaignPayload(None, Some("2025-07-01"), None);
      var (out, store') := UpdateCampaign(store, campaignId, body, userId, today);
      && store'[campaignId].startDate == Date(2025, 7, 1)
      && store'[campaignId].folderPath != CampaignFolder(uploadFolder, store'[campaignId].startDate)
  {
    IsoRoundTrip(Date(2025, 7, 1));
    assert IsoFormat(Date(2025, 7, 1)) == "2025-07-01";
    CampaignFolderByStartDate(uploadFolder, Date(2025, 6, 1), Date(2025, 7, 1));
  }

  /** `delete_campaign`: only the owner may delete; the campaign's image
      records go with it (`cascade="all, delete-orphan"`); files stay on
      disk. */
  function DeleteCampaign(
    store: CampaignStore, images: Uploads.ImageStore, campaignId: int, userId: int)
    : (r: (Outcome<string>, CampaignStore, Uploads.ImageStore))
  {
    if campaignId !in store then (Aborted(404), store, images)
    else if store[campaignId].userId != userId then (Returned(Reply(403, "error", "Forbidden")), store, images)
    else
      (Returned(Reply(200, "message", "Campaign deleted")),
       map id | id in store && id != campaignId :: store[id],
       map k | k in images && k.campaignId != campaignId :: images[k])
  }

  lemma DeleteCampaignSpec(
    store: CampaignStore, images: Uploads.ImageStore, campaignId: int, userId: int)
    ensures var (out, store', images') := DeleteCampaign(store, images, campaignId, userId);
      && (campaignId !in store ==> out == Aborted(404) && store' == store && images' == images)
      && (campaignId in store && store[campaignId].userId != userId ==>
            out == Returned(Reply(403, "error", "Forbidden")) && store' == store && images' == images)
      && (campaignId in store && store[campaignId].userId == userId ==>
            && out == Returned(Reply(200, "message", "Campaign deleted"))
            && store'.Keys == store.Keys - {campaignId}
            && (forall id :: id in store' ==> store'[id] == store[id])
            && (forall k :: k in images' <==> k in images && k.campaignId != campaignId)
            && (forall k :: k in images' ==> images'[k] == images[k]))
  {
  }
}
