/** The jobs as they run: nested loops writing one notification at a time and counting
    what they wrote. */
module ReminderJobs {
  import opened Base
  import opened Reminders

  class Outbox {
    var notices: seq<Notification>

    constructor (ns: seq<Notification>)
      ensures notices == ns
    {
      notices := ns;
    }

    method Notify(user: Id, key: Key, message: string) returns (created: bool)
      modifies this
      ensures notices == Deliver(old(notices), Demand(user, key, message))
      ensures created <==> |notices| == |old(notices)| + 1
      ensures !created <==> |notices| == |old(notices)|
    {
      if Told(notices, user, key) { return false; }
      notices := notices + [Notification(user, Some(key), message)];
      created := true;
    }

    method NotifyAll(data: Data, rows: seq<Saved>, kind: Kind, lead: nat) returns (sent: nat)
      requires forall s <- rows :: s.item in Items(data, kind)
      modifies this
      ensures notices == Send(old(notices), SavedDemands(data, rows, kind, lead))
      ensures |notices| == |old(notices)| + sent
    {
      sent := 0;
      ghost var ds := SavedDemands(data, rows, kind, lead);
      for i := 0 to |rows|
        invariant notices == Send(old(notices), ds[..i])
        invariant |notices| == |old(notices)| + sent
      {
        assert ds[..i + 1] == ds[..i] + [ds[i]];
        SendLast(old(notices), ds[..i], ds[i]);
        var created := Notify(rows[i].user, DeadlineKey(kind, rows[i].item, lead), Items(data, kind)[rows[i].item].title);
        if created { sent := sent + 1; }
      }
      assert ds[..|rows|] == ds;
    }

    method RemindSaved(data: Data, today: int, lead: nat) returns (sent: nat)
      modifies this
      ensures notices == Send(old(notices), DemandsAt(data, today, lead))
      ensures |notices| == |old(notices)| + sent
    {
      var n := NotifyAll(data, SavedRows(data, data.saved, Opportunity, today + lead), Opportunity, lead);
      var m := NotifyAll(data, SavedRows(data, data.saved, Funding, today + lead), Funding, lead);
      sent := n + m;
      hide Send, SavedDemands, SavedRows;
      SendSplits(old(notices), SavedDemands(data, SavedRows(data, data.saved, Opportunity, today + lead), Opportunity, lead),
                 SavedDemands(data, SavedRows(data, data.saved, Funding, today + lead), Funding, lead));
    }

    /** The jobs run over LEAD_DAYS. */
    method SendDeadlineReminders(data: Data, today: int, leads: seq<nat>) returns (sent: nat)
      modifies this
      ensures notices == Send(old(notices), DeadlineDemands(data, today, leads))
      ensures |notices| == |old(notices)| + sent
    {
      sent := 0;
      var todo := leads;
      while todo != []
        invariant |notices| == |old(notices)| + sent
        invariant Send(notices, DeadlineDemands(data, today, todo)) == Send(old(notices), DeadlineDemands(data, today, leads))
        decreases |todo|
      {
        hide DemandsAt;
        SendSplits(notices, DemandsAt(data, today, todo[0]), DeadlineDemands(data, today, todo[1..]));
        var n := RemindSaved(data, today, todo[0]);
        sent := sent + n;
        todo := todo[1..];
      }
    }

    method TellTeam(team: seq<Id>, key: Key, title: string) returns (sent: nat)
      modifies this
      ensures notices == Send(old(notices), ToEach(team, key, title))
      ensures |notices| == |old(notices)| + sent
    {
      sent := 0;
      ghost var ds := ToEach(team, key, title);
      for j := 0 to |team|
        invariant |notices| == |old(notices)| + sent
        invariant notices == Send(old(notices), ds[..j])
      {
        assert ds[..j + 1] == ds[..j] + [ds[j]];
        SendLast(old(notices), ds[..j], ds[j]);
        var created := Notify(team[j], key, title);
        if created { sent := sent + 1; }
      }
      assert ds[..|team|] == ds;
    }

    method TellTeams(data: Data, rows: seq<Milestone>, lead: Option<nat>) returns (sent: nat)
      modifies this
      ensures notices == Send(old(notices), TeamDemands(data, rows, lead))
      ensures |notices| == |old(notices)| + sent
    {
      sent := 0;
      var todo := rows;
      while todo != []
        invariant |notices| == |old(notices)| + sent
        invariant Send(notices, TeamDemands(data, todo, lead)) == Send(old(notices), TeamDemands(data, rows, lead))
        decreases |todo|
      {
        hide Audience, ToEach;
        var row := todo[0];
        SendSplits(notices, ToEach(Audience(data, row.project), MilestoneKey(row, lead), row.title),
                   TeamDemands(data, todo[1..], lead));
        var n := TellTeam(Audience(data, row.project), MilestoneKey(row, lead), row.title);
        sent := sent + n;
        todo := todo[1..];
      }
    }

    method RemindMilestonesDue(data: Data, today: int, leads: seq<nat>) returns (sent: nat)
      modifies this
      ensures notices == Send(old(notices), DueDemands(data, today, leads))
      ensures |notices| == |old(notices)| + sent
    {
      sent := 0;
      var todo := leads;
      while todo != []
        invariant |notices| == |old(notices)| + sent
        invariant Send(notices, DueDemands(data, today, todo)) == Send(old(notices), DueDemands(data, today, leads))
        decreases |todo|
      {
        hide TeamDemands, Matching;
        var rows := Matching(data, data.milestones, today + todo[0], true);
        SendSplits(notices, TeamDemands(data, rows, Some(todo[0])), DueDemands(data, today, todo[1..]));
        var n := TellTeams(data, rows, Some(todo[0]));
        sent := sent + n;
        todo := todo[1..];
      }
    }

    method SendMilestoneReminders(data: Data, today: int, leads: seq<nat>) returns (sent: nat)
      modifies this
      ensures notices == Send(old(notices), MilestoneDemands(data, today, leads))
      ensures |notices| == |old(notices)| + sent
    {
      hide DueDemands, TeamDemands, Matching, Send;
      SendSplits(notices, DueDemands(data, today, leads),
                 TeamDemands(data, Matching(data, data.milestones, today, false), None));
      var due := RemindMilestonesDue(data, today, leads);
      var overdue := TellTeams(data, Matching(data, data.milestones, today, false), None);
      sent := due + overdue;
    }
  }
}
