/** The campaign aggregate: the Campaign entity, which the services load and
    change in place, and the goals and channels it owns. */
module Campaigns {
  import opened Common
  import opened Text

  /** The status and goal-metric vocabularies the campaign service accepts. */
  const AllowedStatuses: set<string> := {"PLANNED", "ACTIVE", "COMPLETED"}
  const AllowedGoalMetrics: set<string> := {"CLICKS", "VIEWS", "CONVERSIONS"}

  /** A goal; `campaign` is the back-reference to the owning campaign. */
  datatype Goal = Goal(description: string, metric: string, targetValue: int, currentValue: int,
                       campaign: Campaign?)

  /** A channel; `campaign` is the back-reference to the owning campaign. */
  datatype Channel = Channel(channelType: string, details: Option<string>, campaign: Campaign?)

  datatype GoalResponse = GoalResponse(description: string, metric: string, targetValue: int, currentValue: int)

  datatype ChannelResponse = ChannelResponse(channelType: string, details: Option<string>)

  /** What the service hands back for a campaign: its fields, with the goals and
      channels as plain values (a missing list reads as empty). */
  datatype CampaignResponse = CampaignResponse(
    id: Option<int>, name: string, description: Option<string>,
    startDate: int, endDate: int, status: string, username: string, stableId: int,
    goals: seq<GoalResponse>, channels: seq<ChannelResponse>,
    createdAt: int, updatedAt: int)

  function GoalResponseOf(g: Goal): GoalResponse
  {
    GoalResponse(g.description, g.metric, g.targetValue, g.currentValue)
  }

  function ChannelResponseOf(c: Channel): ChannelResponse
  {
    ChannelResponse(c.channelType, c.details)
  }

  function GoalResponses(goals: seq<Goal>): (r: seq<GoalResponse>)
    ensures |r| == |goals|
  {
    seq(|goals|, i requires 0 <= i < |goals| => GoalResponseOf(goals[i]))
  }

  function ChannelResponses(channels: seq<Channel>): (r: seq<ChannelResponse>)
    ensures |r| == |channels|
  {
    seq(|channels|, i requires 0 <= i < |channels| => ChannelResponseOf(channels[i]))
  }

  /** No two goals of a campaign have descriptions equal up to case. */
  ghost predicate DistinctDescriptions(goals: seq<Goal>)
  {
    forall i, j :: 0 <= i < j < |goals| ==>
      !EqualsIgnoreCase(goals[i].description, goals[j].description)
  }

  /** No two channels of a campaign have types equal up to case. */
  ghost predicate DistinctTypes(channels: seq<Channel>)
  {
    forall i, j :: 0 <= i < j < |channels| ==>
      !EqualsIgnoreCase(channels[i].channelType, channels[j].channelType)
  }

  /** The status and the goals' metrics are in their vocabularies, every child
      points back at the owning campaign, and goal descriptions and channel
      types are unique up to case. */
  ghost predicate WellFormed(status: string, goals: seq<Goal>, channels: seq<Channel>, owner: Campaign)
  {
    && status in AllowedStatuses
    && (forall i :: 0 <= i < |goals| ==> goals[i].campaign == owner && goals[i].metric in AllowedGoalMetrics)
    && (forall i :: 0 <= i < |channels| ==> channels[i].campaign == owner)
    && DistinctDescriptions(goals)
    && DistinctTypes(channels)
  }

  class Campaign {
    var id: Option<int>            // assigned by the store on first save
    var name: string
    var description: Option<string>
    var startDate: int
    var endDate: int
    var status: string
    var ownerUsername: string
    var stableId: int
    var goals: Option<seq<Goal>>   // None models a null list
    var channels: Option<seq<Channel>>
    var createdAt: int
    var updatedAt: int

    /** The builder: both child lists default to empty and both timestamps to
        the clock reading `now`. */
    constructor Build(name: string, description: Option<string>, startDate: int, endDate: int,
                      status: string, ownerUsername: string, stableId: int, now: int)
      ensures this.id == None
      ensures this.name == name && this.description == description
      ensures this.startDate == startDate && this.endDate == endDate
      ensures this.status == status && this.ownerUsername == ownerUsername && this.stableId == stableId
      ensures goals == Some([]) && channels == Some([])
      ensures createdAt == now && updatedAt == now
    {
      this.id := None;
      this.name := name;
      this.description := description;
      this.startDate := startDate;
      this.endDate := endDate;
      this.status := status;
      this.ownerUsername := ownerUsername;
      this.stableId := stableId;
      goals := Some([]);
      channels := Some([]);
      createdAt := now;
      updatedAt := now;
    }

    function GoalList(): seq<Goal>
      reads this
    {
      goals.GetOr([])
    }

    function ChannelList(): seq<Channel>
      reads this
    {
      channels.GetOr([])
    }

    /** The response mapping: a field-by-field copy. */
    function Response(): CampaignResponse
      reads this
    {
      CampaignResponse(id, name, description, startDate, endDate, status, ownerUsername, stableId,
                       GoalResponses(GoalList()), ChannelResponses(ChannelList()), createdAt, updatedAt)
    }

    /** What the campaign service keeps true of every stored campaign. */
    ghost predicate Consistent()
      reads this
    {
      WellFormed(status, GoalList(), ChannelList(), this)
    }

    /** The pre-persist callback: both timestamps take the clock reading. */
    method OnCreate(now: int)
      modifies this`createdAt, this`updatedAt
      ensures createdAt == now && updatedAt == now
    {
      createdAt := now;
      updatedAt := now;
    }

    /** The pre-update callback: only updatedAt is refreshed; createdAt is
        left alone. */
    method OnUpdate(now: int)
      modifies this`updatedAt
      ensures updatedAt == now
    {
      updatedAt := now;
    }

    /** The flush at the end of a transaction: the pre-update callback runs
        only when some column of the campaign changed. */
    method Flush(columnsChanged: bool, now: int)
      modifies this`updatedAt
      ensures updatedAt == if columnsChanged then now else old(updatedAt)
    {
      if columnsChanged {
        OnUpdate(now);
      }
    }

    /** A null goal list becomes empty; the goal, pointed back at this
        campaign, is appended at the end. Nothing else changes. */
    method AddGoal(goal: Goal)
      modifies this`goals
      ensures goals == Some(old(GoalList()) + [goal.(campaign := this)])
    {
      if goals.None? {
        goals := Some([]);
      }
      goals := Some(goals.value + [goal.(campaign := this)]);
    }

    /** The same for a channel; the goal list is untouched. */
    method AddChannel(channel: Channel)
      modifies this`channels
      ensures channels == Some(old(ChannelList()) + [channel.(campaign := this)])
    {
      if channels.None? {
        channels := Some([]);
      }
      channels := Some(channels.value + [channel.(campaign := this)]);
    }

    /** Overwrites the status with any value, whatever the current one is. */
    method UpdateStatus(status: string)
      modifies this`status
      ensures this.status == status
    {
      this.status := status;
    }
  }
}
