/**
 * The `add` command: resolving a new stint's start and end, looking up its
 * project, and inserting the project and the stint into the store.
 */
module Tracker {
  import opened TimeModel
  import opened Records

  /** `--end_time`: the word "now", or a time of day on the given date. */
  datatype EndTime = Now | At(time: TimeOfDay)

  /** The start and end of a stint, before they are read in UTC. */
  datatype Span = Span(start: Moment, end: Moment)

  /**
   * The time resolution of `add`. The end is "now", allowed only on today's
   * date, or the given time on the given date. The start comes from exactly
   * one of a start time on the date and a duration in minutes before the end.
   * Nothing checks that the start comes before the end.
   */
  function Resolve(date: Date, startTime: Option<TimeOfDay>, endTime: EndTime,
                   durationMinutes: Option<int>, now: Instant, offset: Offset): (r: Result<Span>)
    ensures r == Failure(DateNeedsTime) <==> endTime.Now? && date != Today(now, offset)
    ensures r == Failure(NeedStartOrDuration) <==>
      (endTime.At? || date == Today(now, offset)) && (startTime.Some? == durationMinutes.Some?)
    ensures r.Success? <==>
      (endTime.At? || date == Today(now, offset)) && (startTime.Some? != durationMinutes.Some?)
    ensures r.Success? && endTime.Now? ==> r.value.end.AsInstant() == now && r.value.end.offset == 0
    ensures r.Success? && endTime.At? ==>
      r.value.end.offset == offset
      && LocalDate(r.value.end.AsInstant(), offset) == date
      && LocalTimeOfDay(r.value.end.AsInstant(), offset) == endTime.time
    ensures r.Success? && durationMinutes.Some? ==>
      r.value.end.AsInstant() - r.value.start.AsInstant() == 60 * durationMinutes.value
    ensures r.Success? && startTime.Some? ==>
      LocalDate(r.value.start.AsInstant(), offset) == date
      && LocalTimeOfDay(r.value.start.AsInstant(), offset) == startTime.value
  {
    if endTime.Now? && date != Today(now, offset) then Failure(DateNeedsTime)
    else
      var end := if endTime.Now? then Moment(now, 0) else CombineDateTime(date, endTime.time, offset);
      if durationMinutes.Some? && startTime.None? then
        Success(Span(end.Minus(60 * durationMinutes.value), end))
      else if startTime.Some? && durationMinutes.None? then
        Success(Span(CombineDateTime(date, startTime.value, offset), end))
      else
        Failure(NeedStartOrDuration)
  }

  /** The code accepts a start after the end: nothing rejects an inverted interval. */
  lemma InvertedSpanAccepted(date: Date, offset: Offset, now: Instant)
    ensures var r := Resolve(date, Some(10 * 3600), At(9 * 3600), None, now, offset);
            r.Success? && r.value.start.AsInstant() > r.value.end.AsInstant()
  {
    WindowBounds(date, offset);
  }

  /**
   * `get_project`: the one project with the name. No project of that name is
   * an error, and so is more than one (`one_or_none`).
   */
  function GetProject(projects: seq<Project>, name: string): (r: Result<Project>)
    ensures r.Success? ==> r.value in projects && r.value.name == name
    ensures r == Failure(NoSuchProject(name)) <==> forall i :: 0 <= i < |projects| ==> projects[i].name != name
    ensures r == Failure(MultipleProjects(name)) <==>
      exists i, j :: 0 <= i < j < |projects| && projects[i].name == name && projects[j].name == name
    ensures r.Success? || r == Failure(NoSuchProject(name)) || r == Failure(MultipleProjects(name))
  {
    if |projects| == 0 then Failure(NoSuchProject(name))
    else
      var rest := GetProject(projects[1..], name);
      if projects[0].name != name then
        ShiftedNames(projects, name);
        rest
      else if rest == Failure(NoSuchProject(name)) then
        Success(projects[0])
      else
        ShiftedNames(projects, name);
        Failure(MultipleProjects(name))
  }

  /** A name occurs in a sequence after its first element exactly when it occurs in the tail. */
  lemma ShiftedNames(projects: seq<Project>, name: string)
    requires |projects| > 0
    ensures (forall i :: 0 <= i < |projects| ==> projects[i].name != name) <==>
      projects[0].name != name && forall i :: 0 <= i < |projects[1..]| ==> projects[1..][i].name != name
    ensures (exists i, j :: 0 <= i < j < |projects| && projects[i].name == name && projects[j].name == name) <==>
      (exists i, j :: 0 <= i < j < |projects[1..]| && projects[1..][i].name == name && projects[1..][j].name == name)
      || (projects[0].name == name && exists j :: 0 <= j < |projects[1..]| && projects[1..][j].name == name)
  {
    var tail := projects[1..];
    if exists i, j :: 0 <= i < j < |projects| && projects[i].name == name && projects[j].name == name {
      var i, j :| 0 <= i < j < |projects| && projects[i].name == name && projects[j].name == name;
      if i > 0 {
        assert tail[i - 1].name == name && tail[j - 1].name == name;
      } else {
        assert tail[j - 1].name == name;
      }
    }
    if exists i, j :: 0 <= i < j < |tail| && tail[i].name == name && tail[j].name == name {
      var i, j :| 0 <= i < j < |tail| && tail[i].name == name && tail[j].name == name;
      assert projects[i + 1].name == name && projects[j + 1].name == name;
    }
    if projects[0].name == name && exists j :: 0 <= j < |tail| && tail[j].name == name {
      var j :| 0 <= j < |tail| && tail[j].name == name;
      assert projects[j + 1].name == name;
    }
  }

  /**
   * Appending a project under a name to a store: the lookup finds that
   * project if no other had the name, and fails with more than one if one did.
   */
  lemma {:induction false} GetProjectAfterInsert(projects: seq<Project>, p: Project)
    ensures GetProject(projects + [p], p.name) ==
      if GetProject(projects, p.name) == Failure(NoSuchProject(p.name)) then Success(p)
      else Failure(MultipleProjects(p.name))
  {
    if |projects| > 0 {
      assert (projects + [p])[1..] == projects[1..] + [p];
      GetProjectAfterInsert(projects[1..], p);
    } else {
      assert ([] + [p])[1..] == [];
    }
  }

  /** Appending a project under another name leaves a lookup as it was. */
  lemma {:induction false} GetProjectOtherName(projects: seq<Project>, p: Project, name: string)
    requires p.name != name
    ensures GetProject(projects + [p], name) == GetProject(projects, name)
  {
    if |projects| > 0 {
      assert (projects + [p])[1..] == projects[1..] + [p];
      GetProjectOtherName(projects[1..], p, name);
    } else {
      assert ([] + [p])[1..] == [];
    }
  }

  /** The project and stint tables. */
  class Store {
    var projects: seq<Project>
    var stints: seq<Stint>

    /**
     * Project ids are the row numbers from 1, as an integer primary key
     * assigns them when nothing is deleted, and every stint refers to a
     * project that exists (the foreign key).
     */
    ghost predicate Valid()
      reads this
    {
      && (forall i :: 0 <= i < |projects| ==> projects[i].id == i + 1)
      && (forall k :: 0 <= k < |stints| ==> 1 <= stints[k].projectId <= |projects|)
    }

    constructor ()
      ensures Valid() && projects == [] && stints == []
    {
      projects := [];
      stints := [];
    }

    /**
     * The `add` command. The times are resolved before anything is written,
     * so a resolution error leaves both tables as they were. With
     * `newProject`, a project of the name is inserted and committed on its
     * own; the stint is then inserted only when the lookup by name succeeds,
     * and refers to the project found. The stint's times are stored in UTC
     * and its description is the words joined by single spaces.
     */
    method Add(date: Date, startTime: Option<TimeOfDay>, endTime: EndTime, durationMinutes: Option<int>,
               projectName: string, newProject: bool, comment: Option<string>, description: seq<string>,
               now: Instant, offset: Offset) returns (r: Result<Stint>)
      requires Valid()
      modifies this
      ensures Valid()
      ensures match Resolve(date, startTime, endTime, durationMinutes, now, offset)
        case Failure(e) =>
          r == Failure(e) && projects == old(projects) && stints == old(stints)
        case Success(span) =>
          && projects == old(projects) + (if newProject then [Project(|old(projects)| + 1, projectName, None)] else [])
          && match GetProject(projects, projectName)
             case Failure(e) => r == Failure(e) && stints == old(stints)
             case Success(p) =>
               && r == Success(Stint(span.start.ToUtc().wall, span.end.ToUtc().wall, p.id, Join(description), comment))
               && stints == old(stints) + [r.value]
    {
      var endDt: Moment;
      if endTime.Now? {
        if date != Today(now, offset) {
          return Failure(DateNeedsTime);
        }
        endDt := Moment(now, 0);
      } else {
        endDt := CombineDateTime(date, endTime.time, offset);
      }

      var startDt: Moment;
      if durationMinutes.Some? && startTime.None? {
        startDt := endDt.Minus(60 * durationMinutes.value);
      } else if startTime.Some? && durationMinutes.None? {
        startDt := CombineDateTime(date, startTime.value, offset);
      } else {
        return Failure(NeedStartOrDuration);
      }

      if newProject {
        projects := projects + [Project(|projects| + 1, projectName, None)];
      }

      var project := GetProject(projects, projectName);
      if project.Failure? {
        return Failure(project.error);
      }
      var p := project.value;
      ghost var k :| 0 <= k < |projects| && projects[k] == p;
      var stint := Stint(startDt.ToUtc().wall, endDt.ToUtc().wall, p.id, Join(description), comment);
      stints := stints + [stint];
      r := Success(stint);
    }
  }

  /**
   * Two `add` calls with `newProject` under one name, on a fresh store. The
   * first inserts the project and its stint; the second commits a second
   * project of that name, whose lookup then finds two, so no stint is added.
   */
  method DuplicateNewProjectScenario(now: Instant, offset: Offset)
    returns (first: Result<Stint>, second: Result<Stint>, projectCount: nat, stintCount: nat)
    ensures first.Success? && first.value.projectId == 1 && first.value.description == "fix login"
    ensures first.value.end == now && first.value.start == now - 1800
    ensures second == Failure(MultipleProjects("tt"))
    ensures projectCount == 2 && stintCount == 1
  {
    var store := new Store();
    var today := Today(now, offset);
    var span := Resolve(today, None, Now, Some(30), now, offset);
    assert span.Success? && span.value.end == Moment(now, 0) && span.value.start == Moment(now - 1800, 0);
    first := store.Add(today, None, Now, Some(30), "tt", true, None, ["fix", "login"], now, offset);
    assert ["fix", "login"][1..] == ["login"];
    assert Join(["fix", "login"]) == "fix login";
    second := store.Add(today, None, Now, Some(30), "tt", true, None, ["standup"], now, offset);
    GetProjectAfterInsert(store.projects[..1], store.projects[1]);
    assert store.projects[..1] + [store.projects[1]] == store.projects;
    projectCount, stintCount := |store.projects|, |store.stints|;
  }
}
