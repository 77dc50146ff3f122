/**
 * FsdPilot: a pilot client seen on the FSD network. Each position report
 * replaces the current position, keeps the previous one from the second
 * report on, fires Updated and restarts the entity's activity stopwatch.
 */
module FsdPilots {
  import opened Wrappers
  import opened Exceptions
  import opened FsdEntities
  import Distances
  import Speeds
  import PilotPositionMessages

  type Coordinate = PilotPositionMessages.Coordinate

  class FsdPilot {
    /** The FsdEntity part of the pilot: name, stopwatch and events. */
    const entity: FsdEntity
    var hadFirstPositionReport: bool
    /** Position and LastPosition: None stands for null. */
    var position: Option<Coordinate>
    var lastPosition: Option<Coordinate>
    var groundSpeed: Speeds.Speed
    var altitude: Distances.Distance
    /** The positions reported so far, oldest first. */
    ghost var reports: seq<Coordinate>

    /** Position is the latest report and LastPosition the one before it, or null where there is none. */
    ghost predicate Valid()
      reads this
    {
      (hadFirstPositionReport <==> reports != [])
      && position == (if reports == [] then None else Some(reports[|reports| - 1]))
      && lastPosition == (if |reports| < 2 then None else Some(reports[|reports| - 2]))
    }

    /** Callsign: the entity's FSD name. */
    function Callsign(): (s: string)
      ensures s == entity.fsdName
    {
      entity.fsdName
    }

    /** The constructor for a non-empty name: no position yet, zero ground speed and zero altitude. */
    constructor(fsdName: string)
      requires fsdName != ""
      ensures Valid() && reports == [] && !hadFirstPositionReport
      ensures position == None && lastPosition == None
      ensures groundSpeed == Speeds.Zero && altitude == Distances.Zero
      ensures fresh(entity) && entity.fsdName == fsdName
      ensures entity.State() == Activity(0, false) && entity.events == []
    {
      entity := new FsdEntity(fsdName);
      hadFirstPositionReport := false;
      position := None;
      lastPosition := None;
      groundSpeed := Speeds.Zero;
      altitude := Distances.Zero;
      reports := [];
    }

    /**
     * HandlePosition: the previous position becomes LastPosition only when
     * there was one; position, ground speed and altitude are taken from the
     * message; then Updated fires once and the stopwatch restarts.
     */
    method HandlePosition(message: PilotPositionMessages.PilotPositionMessage)
      requires Valid()
      modifies this, entity
      ensures Valid() && reports == old(reports) + [message.position]
      ensures hadFirstPositionReport && position == Some(message.position)
      ensures lastPosition == (if old(hadFirstPositionReport) then old(position) else None)
      ensures groundSpeed == message.groundSpeed && altitude == message.trueAltitude
      ensures entity.events == old(entity.events) + [Updated]
      ensures entity.State() == WakeUpStep(old(entity.State()))
    {
      if hadFirstPositionReport {
        lastPosition := position;
      }
      position := Some(message.position);
      hadFirstPositionReport := true;
      groundSpeed := message.groundSpeed;
      altitude := message.trueAltitude;
      reports := reports + [message.position];
      entity.NotifyUpdated();
      entity.WakeUp();
    }
  }

  /** The constructor's check, inherited from FsdEntity: a null or empty name throws ArgumentNullException. */
  method NewPilot(fsdName: string) returns (r: Result<FsdPilot, Exception>)
    ensures fsdName == "" <==> r == Failure(ArgumentNull("fsdName"))
    ensures r.Success? ==> fresh(r.value) && r.value.Valid() && r.value.reports == []
  {
    if fsdName == "" {
      return Failure(ArgumentNull("fsdName"));
    }
    var pilot := new FsdPilot(fsdName);
    return Success(pilot);
  }

  /** Two reports in a row: LastPosition is the first, Position the second. */
  method TwoReports(pilot: FsdPilot, first: PilotPositionMessages.PilotPositionMessage,
                    second: PilotPositionMessages.PilotPositionMessage)
    requires pilot.Valid()
    modifies pilot, pilot.entity
    ensures pilot.position == Some(second.position) && pilot.lastPosition == Some(first.position)
    ensures pilot.entity.events == old(pilot.entity.events) + [Updated, Updated]
  {
    pilot.HandlePosition(first);
    pilot.HandlePosition(second);
  }
}
