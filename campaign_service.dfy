/** The campaign service: every operation is a fixed sequence of guards
    (vocabulary, existence, owner/admin, uniqueness) followed by at most one
    change to the campaign store. */
module CampaignServices {
  import opened Common
  import opened Text
  import opened Campaigns
  import opened Stables

  datatype CreateCampaignRequest = CreateCampaignRequest(
    name: string, description: Option<string>, startDate: int, endDate: int,
    status: string, stableId: int)

  datatype AddGoalRequest = AddGoalRequest(
    description: string, metric: string, targetValue: int, currentValue: int)

  datatype AddChannelRequest = AddChannelRequest(channelType: string, details: Option<string>)

  /** The goal built from a request, before it is attached to a campaign. */
  function NewGoal(request: AddGoalRequest): Goal
  {
    Goal(request.description, request.metric, request.targetValue, request.currentValue, null)
  }

  function NewChannel(request: AddChannelRequest): Channel
  {
    Channel(request.channelType, request.details, null)
  }

  /** The anyMatch over the goals: some goal's description equals d up to case. */
  function HasGoalDescription(goals: seq<Goal>, d: string): (b: bool)
    ensures b <==> exists i :: 0 <= i < |goals| && EqualsIgnoreCase(goals[i].description, d)
  {
    if goals == [] then false
    else EqualsIgnoreCase(goals[0].description, d) || HasGoalDescription(goals[1..], d)
  }

  /** The anyMatch over the channels: some channel's type equals t up to case. */
  function HasChannelType(channels: seq<Channel>, t: string): (b: bool)
    ensures b <==> exists i :: 0 <= i < |channels| && EqualsIgnoreCase(channels[i].channelType, t)
  {
    if channels == [] then false
    else EqualsIgnoreCase(channels[0].channelType, t) || HasChannelType(channels[1..], t)
  }

  /** On a well-formed campaign, appending a goal keeps it well formed
      exactly when the goal points back at the campaign, has an allowed
      metric and a description no goal has up to case: the service's guards
      are both sufficient and necessary. */
  lemma AppendGoalKeepsWellFormed(status: string, goals: seq<Goal>, channels: seq<Channel>, owner: Campaign, g: Goal)
    requires WellFormed(status, goals, channels, owner)
    ensures WellFormed(status, goals + [g], channels, owner) <==>
      g.campaign == owner && g.metric in AllowedGoalMetrics && !HasGoalDescription(goals, g.description)
  {
    var extended := goals + [g];
    if WellFormed(status, extended, channels, owner) {
      assert extended[|goals|] == g;
      forall i | 0 <= i < |goals| ensures !EqualsIgnoreCase(goals[i].description, g.description) {
        assert extended[i] == goals[i];
      }
    }
  }

  /** The same for a channel: it must point back at the campaign and have a
      type no channel has up to case. */
  lemma AppendChannelKeepsWellFormed(status: string, goals: seq<Goal>, channels: seq<Channel>, owner: Campaign, c: Channel)
    requires WellFormed(status, goals, channels, owner)
    ensures WellFormed(status, goals, channels + [c], owner) <==>
      c.campaign == owner && !HasChannelType(channels, c.channelType)
  {
    var extended := channels + [c];
    if WellFormed(status, goals, extended, owner) {
      assert extended[|channels|] == c;
      forall i | 0 <= i < |channels| ensures !EqualsIgnoreCase(channels[i].channelType, c.channelType) {
        assert extended[i] == channels[i];
      }
    }
  }

  class CampaignRepository {
    var rows: map<int, Campaign>
    var nextId: nat

    /** Every stored campaign carries its own key as id (so no object is stored
        twice), keys lie below the next id, (owner, name) is unique and every
        campaign is consistent. */
    ghost predicate Valid()
      reads this, rows.Values
    {
      && (forall k :: k in rows ==> rows[k].id == Some(k) && k < nextId)
      && (forall k, l :: k in rows && l in rows && k != l ==>
            rows[k].ownerUsername != rows[l].ownerUsername || rows[k].name != rows[l].name)
      && (forall k :: k in rows ==> rows[k].Consistent())
    }

    constructor ()
      ensures Valid() && rows == map[] && nextId == 1
    {
      rows := map[];
      nextId := 1;
    }

    /** The objects an update of campaign `id` may touch. */
    function At(id: int): set<Campaign>
      reads this
    {
      if id in rows then {rows[id]} else {}
    }

    /** The store's contents as responses, keyed by id. */
    ghost function Snapshot(): map<int, CampaignResponse>
      reads this, rows.Values
    {
      map k | k in rows :: rows[k].Response()
    }

    /** findByNameAndOwnerUsername(...).isPresent() */
    predicate NameTaken(name: string, owner: string)
      reads this, rows.Values
    {
      exists k :: k in rows && rows[k].name == name && rows[k].ownerUsername == owner
    }

    /** In a valid store a taken (name, owner) pair belongs to exactly one
        campaign, so the lookup's optional result is well defined. */
    lemma NameTakenByOne(name: string, owner: string)
      requires Valid() && NameTaken(name, owner)
      ensures exists k :: (k in rows && rows[k].name == name && rows[k].ownerUsername == owner
        && forall l :: l in rows && l != k ==> rows[l].name != name || rows[l].ownerUsername != owner)
    {
      var k :| k in rows && rows[k].name == name && rows[k].ownerUsername == owner;
      assert forall l :: l in rows && l != k ==> rows[l].name != name || rows[l].ownerUsername != owner;
    }

    /** save of a new campaign: the pre-persist callback stamps both
        timestamps, and the campaign is stored under the next id. */
    method Insert(c: Campaign, now: int)
      requires Valid()
      requires c.id == None && c !in rows.Values && c.Consistent()
      requires !NameTaken(c.name, c.ownerUsername)
      modifies this, c`id, c`createdAt, c`updatedAt
      ensures Valid()
      ensures rows == old(rows)[old(nextId) := c] && nextId == old(nextId) + 1
      ensures c.id == Some(old(nextId)) && c.createdAt == now && c.updatedAt == now
    {
      c.OnCreate(now);
      c.id := Some(nextId);
      rows := rows[nextId := c];
      nextId := nextId + 1;
    }
  }

  /** Two snapshots with the same keys that agree away from `id` differ by
      the entry at `id` alone. */
  lemma SnapshotOneChanged(before: map<int, CampaignResponse>, after: map<int, CampaignResponse>, id: int)
    requires before.Keys == after.Keys && id in after
    requires forall k :: k in after && k != id ==> after[k] == before[k]
    ensures after == before[id := after[id]]
  {
  }

  /** The response mapping commutes with appending one child. */
  lemma GoalResponsesAppend(goals: seq<Goal>, g: Goal)
    ensures GoalResponses(goals + [g]) == GoalResponses(goals) + [GoalResponseOf(g)]
  {
  }

  lemma ChannelResponsesAppend(channels: seq<Channel>, c: Channel)
    ensures ChannelResponses(channels + [c]) == ChannelResponses(channels) + [ChannelResponseOf(c)]
  {
  }

  class CampaignService {
    const campaignRepository: CampaignRepository
    const stableRepository: StableRepository

    constructor (campaignRepository: CampaignRepository, stableRepository: StableRepository)
      ensures this.campaignRepository == campaignRepository
      ensures this.stableRepository == stableRepository
    {
      this.campaignRepository := campaignRepository;
      this.stableRepository := stableRepository;
    }

    /** Checks, in this order: status in its vocabulary (InvalidValue), the
        caller has no campaign of that name (DuplicateResource), the stable
        exists (NotFound), the caller may use it (Security). Any failure leaves
        the store as it was; success stores one new campaign owned by the
        caller, on the requested stable and status, with no goals or channels. */
    method CreateCampaign(request: CreateCampaignRequest, username: string, isAdmin: bool, now: int)
      returns (r: Result<CampaignResponse>)
      requires campaignRepository.Valid()
      modifies campaignRepository
      ensures campaignRepository.Valid()
      ensures request.status !in AllowedStatuses ==> r == Failure(InvalidValue)
      ensures (request.status in AllowedStatuses
               && old(campaignRepository.NameTaken(request.name, username))) ==>
        r == Failure(DuplicateResource)
      ensures (request.status in AllowedStatuses
               && !old(campaignRepository.NameTaken(request.name, username))
               && request.stableId !in stableRepository.rows) ==>
        r == Failure(NotFound)
      ensures (request.status in AllowedStatuses
               && !old(campaignRepository.NameTaken(request.name, username))
               && request.stableId in stableRepository.rows
               && !Allowed(username, isAdmin, stableRepository.rows[request.stableId].ownerUsername)) ==>
        r == Failure(Security)
      ensures (request.status in AllowedStatuses
               && !old(campaignRepository.NameTaken(request.name, username))
               && request.stableId in stableRepository.rows
               && Allowed(username, isAdmin, stableRepository.rows[request.stableId].ownerUsername)) ==>
        r.Success?
      ensures r.Failure? ==>
        campaignRepository.rows == old(campaignRepository.rows)
        && campaignRepository.nextId == old(campaignRepository.nextId)
      ensures r.Success? ==>
        var id := old(campaignRepository.nextId);
        && request.stableId in stableRepository.rows
        && Allowed(username, isAdmin, stableRepository.rows[request.stableId].ownerUsername)
        && id in campaignRepository.rows && fresh(campaignRepository.rows[id])
        && campaignRepository.rows == old(campaignRepository.rows)[id := campaignRepository.rows[id]]
        && campaignRepository.nextId == id + 1
        && r.value == CampaignResponse(Some(id), request.name, request.description,
                                       request.startDate, request.endDate, request.status,
                                       username, request.stableId, [], [], now, now)
        && campaignRepository.rows[id].Response() == r.value
    {
      if request.status !in AllowedStatuses {
        return Failure(InvalidValue);
      }
      if campaignRepository.NameTaken(request.name, username) {
        return Failure(DuplicateResource);
      }
      if request.stableId !in stableRepository.rows {
        return Failure(NotFound);
      }
      var stable := stableRepository.rows[request.stableId];
      if !isAdmin && stable.ownerUsername != username {
        return Failure(Security);
      }
      var campaign := new Campaign.Build(request.name, request.description, request.startDate,
                                         request.endDate, request.status, username,
                                         request.stableId, now);
      campaignRepository.Insert(campaign, now);
      r := Success(campaign.Response());
    }

    /** NotFound for a missing id; Security exactly when the caller is neither
        admin nor owner; the campaign otherwise. */
    method GetCampaignById(id: int, username: string, isAdmin: bool) returns (r: Result<CampaignResponse>)
      ensures id !in campaignRepository.rows ==> r == Failure(NotFound)
      ensures id in campaignRepository.rows ==>
        var c := campaignRepository.rows[id];
        r == if Allowed(username, isAdmin, c.ownerUsername) then Success(c.Response()) else Failure(Security)
    {
      if id !in campaignRepository.rows {
        return Failure(NotFound);
      }
      var campaign := campaignRepository.rows[id];
      if !isAdmin && campaign.ownerUsername != username {
        return Failure(Security);
      }
      r := Success(campaign.Response());
    }

    /** Every campaign for an admin, exactly the caller's own otherwise: the
        listing shows precisely the campaigns the per-id gate lets through. */
    method GetAllCampaignsByUsername(username: string, isAdmin: bool) returns (r: map<int, CampaignResponse>)
      ensures isAdmin ==> r.Keys == campaignRepository.rows.Keys
      ensures !isAdmin ==> forall k :: k in r <==>
        k in campaignRepository.rows && campaignRepository.rows[k].ownerUsername == username
      ensures forall k :: k in campaignRepository.rows ==>
        (k in r <==> Allowed(username, isAdmin, campaignRepository.rows[k].ownerUsername))
      ensures forall k :: k in r ==>
        k in campaignRepository.rows && r[k] == campaignRepository.rows[k].Response()
    {
      var rows := campaignRepository.rows;
      if isAdmin {
        r := map k | k in rows :: rows[k].Response();
      } else {
        r := map k | k in rows && rows[k].ownerUsername == username :: rows[k].Response();
      }
    }

    /** All campaigns on the stable, whoever owns them: no owner filter. */
    method GetCampaignsByStableId(stableId: int) returns (r: map<int, CampaignResponse>)
      ensures forall k :: k in r <==>
        k in campaignRepository.rows && campaignRepository.rows[k].stableId == stableId
      ensures forall k :: k in r ==> r[k] == campaignRepository.rows[k].Response()
    {
      var rows := campaignRepository.rows;
      r := map k | k in rows && rows[k].stableId == stableId :: rows[k].Response();
    }

    /** NotFound / Security as for a read; on success the campaign leaves the
        store together with the goals and channels it owns, and nothing else
        changes. */
    method DeleteCampaign(id: int, username: string, isAdmin: bool) returns (r: Result<()>)
      requires campaignRepository.Valid()
      modifies campaignRepository
      ensures campaignRepository.Valid()
      ensures id !in old(campaignRepository.rows) ==> r == Failure(NotFound)
      ensures id in old(campaignRepository.rows) ==>
        r == if Allowed(username, isAdmin, old(campaignRepository.rows[id].ownerUsername))
             then Success(()) else Failure(Security)
      ensures campaignRepository.nextId == old(campaignRepository.nextId)
      ensures campaignRepository.rows ==
        if r.Success? then old(campaignRepository.rows) - {id} else old(campaignRepository.rows)
    {
      if id !in campaignRepository.rows {
        return Failure(NotFound);
      }
      var campaign := campaignRepository.rows[id];
      if !isAdmin && campaign.ownerUsername != username {
        return Failure(Security);
      }
      campaignRepository.rows := campaignRepository.rows - {id};
      r := Success(());
    }

    /** The new status is checked before the lookup (InvalidValue), then
        NotFound and Security. On success only the status changes, to any
        allowed value whatever the current one. The response is built before
        the transaction flushes, so it carries the old updatedAt; the flush
        then runs the pre-update callback, at `flushTime`, only when the
        status really changed. Every other stored campaign is untouched, and
        on failure nothing is. */
    method UpdateCampaignStatus(id: int, newStatus: string, username: string, isAdmin: bool, flushTime: int)
      returns (r: Result<CampaignResponse>)
      requires campaignRepository.Valid()
      modifies campaignRepository.At(id)
      ensures campaignRepository.Valid()
      ensures newStatus !in AllowedStatuses ==> r == Failure(InvalidValue)
      ensures newStatus in AllowedStatuses && id !in campaignRepository.rows ==> r == Failure(NotFound)
      ensures newStatus in AllowedStatuses && id in campaignRepository.rows ==>
        r == if Allowed(username, isAdmin, old(campaignRepository.rows[id].ownerUsername))
             then Success(old(campaignRepository.rows[id].Response()).(status := newStatus))
             else Failure(Security)
      ensures r.Failure? ==> campaignRepository.Snapshot() == old(campaignRepository.Snapshot())
      ensures r.Success? ==>
        var flushed := if newStatus == old(campaignRepository.rows[id].status) then r.value.updatedAt else flushTime;
        campaignRepository.Snapshot() == old(campaignRepository.Snapshot())[id := r.value.(updatedAt := flushed)]
    {
      if newStatus !in AllowedStatuses {
        return Failure(InvalidValue);
      }
      if id !in campaignRepository.rows {
        return Failure(NotFound);
      }
      var campaign := campaignRepository.rows[id];
      if !isAdmin && campaign.ownerUsername != username {
        return Failure(Security);
      }
      assert forall k :: k in campaignRepository.rows && k != id ==> campaignRepository.rows[k] != campaign;
      ghost var before := campaign.Response();
      var changed := campaign.status != newStatus;
      campaign.UpdateStatus(newStatus);
      assert campaign.Consistent();
      r := Success(campaign.Response());
      assert r.value == before.(status := newStatus);
      campaign.Flush(changed, flushTime);
      assert campaign.Consistent();
      assert campaign.Response() == r.value.(updatedAt := campaign.updatedAt);
      forall k | k in campaignRepository.rows
        ensures campaignRepository.rows[k].id == old(campaignRepository.rows[k].id)
        ensures campaignRepository.rows[k].name == old(campaignRepository.rows[k].name)
        ensures campaignRepository.rows[k].ownerUsername == old(campaignRepository.rows[k].ownerUsername)
        ensures campaignRepository.rows[k].Consistent()
        ensures k != id ==> campaignRepository.rows[k].Response() == old(campaignRepository.rows[k].Response())
      {
      }
      SnapshotOneChanged(old(campaignRepository.Snapshot()), campaignRepository.Snapshot(), id);
    }

    /** Existence, then ownership, then the metric vocabulary, then a goal
        with the same description up to case (DuplicateResource). On success
        the goal list grows by exactly the new goal, at its end and pointing
        back at the campaign; only that campaign changes. A change to the
        goal list alone is not a change to a campaign column, so updatedAt
        stays as it was. */
    method AddGoalToCampaign(id: int, request: AddGoalRequest, username: string, isAdmin: bool)
      returns (r: Result<CampaignResponse>)
      requires campaignRepository.Valid()
      modifies campaignRepository.At(id)
      ensures campaignRepository.Valid()
      ensures id !in campaignRepository.rows ==> r == Failure(NotFound)
      ensures id in campaignRepository.rows ==>
        var c := campaignRepository.rows[id];
        && (!Allowed(username, isAdmin, old(c.ownerUsername)) ==> r == Failure(Security))
        && (Allowed(username, isAdmin, old(c.ownerUsername)) && request.metric !in AllowedGoalMetrics ==>
              r == Failure(InvalidValue))
        && (Allowed(username, isAdmin, old(c.ownerUsername)) && request.metric in AllowedGoalMetrics
            && old(HasGoalDescription(c.GoalList(), request.description)) ==>
              r == Failure(DuplicateResource))
        && (Allowed(username, isAdmin, old(c.ownerUsername)) && request.metric in AllowedGoalMetrics
            && !old(HasGoalDescription(c.GoalList(), request.description)) ==>
              r.Success?)
        && (r.Success? ==>
              c.GoalList() == old(c.GoalList()) + [NewGoal(request).(campaign := c)]
              && r.value == old(c.Response()).(goals := old(c.Response().goals) + [GoalResponseOf(NewGoal(request))]))
      ensures r.Failure? ==> campaignRepository.Snapshot() == old(campaignRepository.Snapshot())
      ensures r.Success? ==> campaignRepository.Snapshot() == old(campaignRepository.Snapshot())[id := r.value]
    {
      if id !in campaignRepository.rows {
        return Failure(NotFound);
      }
      var campaign := campaignRepository.rows[id];
      if !isAdmin && campaign.ownerUsername != username {
        return Failure(Security);
      }
      if request.metric !in AllowedGoalMetrics {
        return Failure(InvalidValue);
      }
      if campaign.goals.Some? && HasGoalDescription(campaign.goals.value, request.description) {
        return Failure(DuplicateResource);
      }
      ghost var before := campaign.Response();
      AppendGoalKeepsWellFormed(campaign.status, campaign.GoalList(), campaign.ChannelList(), campaign,
                                NewGoal(request).(campaign := campaign));
      assert forall k :: k in campaignRepository.rows && k != id ==> campaignRepository.rows[k] != campaign;
      campaign.AddGoal(NewGoal(request));
      assert campaign.Consistent();
      r := Success(campaign.Response());
      GoalResponsesAppend(old(campaign.GoalList()), NewGoal(request).(campaign := campaign));
      assert r.value == before.(goals := before.goals + [GoalResponseOf(NewGoal(request))]);
      forall k | k in campaignRepository.rows
        ensures campaignRepository.rows[k].id == old(campaignRepository.rows[k].id)
        ensures campaignRepository.rows[k].name == old(campaignRepository.rows[k].name)
        ensures campaignRepository.rows[k].ownerUsername == old(campaignRepository.rows[k].ownerUsername)
        ensures campaignRepository.rows[k].Consistent()
        ensures k != id ==> campaignRepository.rows[k].Response() == old(campaignRepository.rows[k].Response())
      {
      }
      SnapshotOneChanged(old(campaignRepository.Snapshot()), campaignRepository.Snapshot(), id);
    }

    /** Existence, then ownership, then a channel with the same type up to
        case (DuplicateResource). On success the channel list grows by exactly
        the new channel, at its end; only that campaign changes, and its
        updatedAt stays as it was. */
    method AddChannelToCampaign(id: int, request: AddChannelRequest, username: string, isAdmin: bool)
      returns (r: Result<CampaignResponse>)
      requires campaignRepository.Valid()
      modifies campaignRepository.At(id)
      ensures campaignRepository.Valid()
      ensures id !in campaignRepository.rows ==> r == Failure(NotFound)
      ensures id in campaignRepository.rows ==>
        var c := campaignRepository.rows[id];
        && (!Allowed(username, isAdmin, old(c.ownerUsername)) ==> r == Failure(Security))
        && (Allowed(username, isAdmin, old(c.ownerUsername))
            && old(HasChannelType(c.ChannelList(), request.channelType)) ==>
              r == Failure(DuplicateResource))
        && (Allowed(username, isAdmin, old(c.ownerUsername))
            && !old(HasChannelType(c.ChannelList(), request.channelType)) ==>
              r.Success?)
        && (r.Success? ==>
              c.ChannelList() == old(c.ChannelList()) + [NewChannel(request).(campaign := c)]
              && c.GoalList() == old(c.GoalList())
              && r.value == old(c.Response()).(channels := old(c.Response().channels) + [ChannelResponseOf(NewChannel(request))]))
      ensures r.Failure? ==> campaignRepository.Snapshot() == old(campaignRepository.Snapshot())
      ensures r.Success? ==> campaignRepository.Snapshot() == old(campaignRepository.Snapshot())[id := r.value]
    {
      if id !in campaignRepository.rows {
        return Failure(NotFound);
      }
      var campaign := campaignRepository.rows[id];
      if !isAdmin && campaign.ownerUsername != username {
        return Failure(Security);
      }
      if campaign.channels.Some? && HasChannelType(campaign.channels.value, request.channelType) {
        return Failure(DuplicateResource);
      }
      ghost var before := campaign.Response();
      AppendChannelKeepsWellFormed(campaign.status, campaign.GoalList(), campaign.ChannelList(), campaign,
                                   NewChannel(request).(campaign := campaign));
      assert forall k :: k in campaignRepository.rows && k != id ==> campaignRepository.rows[k] != campaign;
      campaign.AddChannel(NewChannel(request));
      assert campaign.Consistent();
      r := Success(campaign.Response());
      ChannelResponsesAppend(old(campaign.ChannelList()), NewChannel(request).(campaign := campaign));
      assert r.value == before.(channels := before.channels + [ChannelResponseOf(NewChannel(request))]);
      forall k | k in campaignRepository.rows
        ensures campaignRepository.rows[k].id == old(campaignRepository.rows[k].id)
        ensures campaignRepository.rows[k].name == old(campaignRepository.rows[k].name)
        ensures campaignRepository.rows[k].ownerUsername == old(campaignRepository.rows[k].ownerUsername)
        ensures campaignRepository.rows[k].Consistent()
        ensures k != id ==> campaignRepository.rows[k].Response() == old(campaignRepository.rows[k].Response())
      {
      }
      SnapshotOneChanged(old(campaignRepository.Snapshot()), campaignRepository.Snapshot(), id);
    }

    /** Gated exactly like GetCampaignById; then the campaign's goals. */
    method GetGoalsByCampaignId(id: int, username: string, isAdmin: bool) returns (r: Result<seq<GoalResponse>>)
      ensures id !in campaignRepository.rows ==> r == Failure(NotFound)
      ensures id in campaignRepository.rows ==>
        var c := campaignRepository.rows[id];
        r == if Allowed(username, isAdmin, c.ownerUsername) then Success(GoalResponses(c.GoalList()))
             else Failure(Security)
    {
      if id !in campaignRepository.rows {
        return Failure(NotFound);
      }
      var campaign := campaignRepository.rows[id];
      if !isAdmin && campaign.ownerUsername != username {
        return Failure(Security);
      }
      r := Success(GoalResponses(campaign.GoalList()));
    }

    /** Gated exactly like GetCampaignById; then the campaign's channels. */
    method GetChannelsByCampaignId(id: int, username: string, isAdmin: bool)
      returns (r: Result<seq<ChannelResponse>>)
      ensures id !in campaignRepository.rows ==> r == Failure(NotFound)
      ensures id in campaignRepository.rows ==>
        var c := campaignRepository.rows[id];
        r == if Allowed(username, isAdmin, c.ownerUsername) then Success(ChannelResponses(c.ChannelList()))
             else Failure(Security)
    {
      if id !in campaignRepository.rows {
        return Failure(NotFound);
      }
      var campaign := campaignRepository.rows[id];
      if !isAdmin && campaign.ownerUsername != username {
        return Failure(Security);
      }
      r := Success(ChannelResponses(campaign.ChannelList()));
    }
  }
}
