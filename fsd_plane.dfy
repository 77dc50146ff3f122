/**
 * FsdPlane: a plane whose position an FSD plane-position message reports.
 * It is created from its first message and each later message replaces the
 * position, fires Updated and restarts the entity's activity stopwatch.
 */
module FsdPlanes {
  import opened Wrappers
  import opened Exceptions
  import opened FsdEntities
  import opened FsdMessages
  import PlanePositions
  import PlanePositionMessages

  class FsdPlane {
    /** The FsdEntity part of the plane: name, stopwatch and events. */
    const entity: FsdEntity
    var position: PlanePositions.PlanePosition

    /** Callsign: the entity's FSD name. */
    function Callsign(): (s: string)
      ensures s == entity.fsdName
    {
      entity.fsdName
    }

    /**
     * The constructor for a message with a non-empty source: the entity is
     * named after the source and the message is handled as a position report.
     */
    constructor(message: PlanePositionMessages.PlanePositionMessage)
      requires message.header.source != ""
      ensures fresh(entity) && entity.fsdName == message.header.source
      ensures position == message.position
      ensures entity.State() == Activity(0, false) && entity.events == [Updated]
    {
      entity := new FsdEntity(message.header.source);
      position := message.position;
      new;
      entity.NotifyUpdated();
      entity.WakeUp();
    }

    /** HandlePosition: replace the position, fire Updated once, restart the stopwatch. */
    method HandlePosition(message: PlanePositionMessages.PlanePositionMessage)
      modifies this, entity
      ensures position == message.position
      ensures entity.events == old(entity.events) + [Updated]
      ensures entity.State() == WakeUpStep(old(entity.State()))
    {
      position := message.position;
      entity.NotifyUpdated();
      entity.WakeUp();
    }
  }

  /** The constructor's check, inherited from FsdEntity: an empty source throws ArgumentNullException. */
  method NewPlane(message: PlanePositionMessages.PlanePositionMessage) returns (r: Result<FsdPlane, Exception>)
    ensures message.header.source == "" <==> r == Failure(ArgumentNull("fsdName"))
    ensures PlanePositionMessages.Valid(message) ==> r.Success?
    ensures r.Success? ==> fresh(r.value) && r.value.position == message.position
    ensures r.Success? ==> r.value.Callsign() == message.header.source
  {
    if message.header.source == "" {
      return Failure(ArgumentNull("fsdName"));
    }
    var plane := new FsdPlane(message);
    return Success(plane);
  }
}
