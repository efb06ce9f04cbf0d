/**
 * The drop target's `drop` callback: it reads the pointer's client offset
 * and forwards the drop to the game only when an offset is available; it
 * always acknowledges the drop with the zone's name.
 */
module DropZone {
  import opened Wrappers

  /** A client offset in viewport pixels. */
  datatype Point = Point(x: real, y: real)

  /** The drag payload; the game's handler ignores its content. */
  datatype DragItem = DragItem(name: string)

  datatype DropResult = DropResult(name: string)

  /** What one drop callback does: the call to `onDrop`, if any, and the value it returns. */
  datatype DropOutcome = DropOutcome(forwarded: Option<(DragItem, Point)>, result: DropResult)

  const ZoneName: string := "DropZone"

  function OnZoneDrop(item: DragItem, clientOffset: Option<Point>): (r: DropOutcome)
    ensures r.result == DropResult(ZoneName)
    ensures r.forwarded.Some? <==> clientOffset.Some?
    ensures r.forwarded.Some? ==> r.forwarded.value == (item, clientOffset.value)
  {
    var forwarded := match clientOffset
      case Some(pos) => Some((item, pos))
      case None => None;
    DropOutcome(forwarded, DropResult(ZoneName))
  }
}
