/** HoldItem: a registered item, its container style and its measurement. */
module HoldItem {
  import opened Common
  import Provider

  /** What measure(containerRef) reports for a laid-out view. */
  datatype Measurement = Measurement(pageX: real, pageY: real, width: real, height: real)

  /** An item is active exactly when it is the provider's current item. */
  function IsActive(currentId: string, name: string): bool
  {
    currentId == name
  }

  datatype ContainerStyle = ContainerStyle(opacity: Anim, scale: Anim)

  /**
   * animatedContainerStyle: the item in place is hidden while it is active
   * (its floating copy shows instead) and reappears after the transform
   * duration; only the pressed item follows the shared press scale.
   */
  function AnimatedContainerStyle(k: Constants, currentId: string, activeId: string, name: string,
                                  itemScale: Anim): (s: ContainerStyle)
    ensures Settles(s.opacity) == (if IsActive(currentId, name) then 0.0 else 1.0)
    ensures !IsActive(currentId, name) ==> s.opacity == Delay(k.transformDuration, Timing(1.0, 0.0, false))
    ensures IsActive(currentId, name) ==> s.scale == Timing(1.0, k.transformDuration, false)
    ensures !IsActive(currentId, name) && activeId == name ==> s.scale == itemScale
    ensures activeId != name ==> Settles(s.scale) == 1.0 && !CallsBack(s.scale)
  {
    var isActive := IsActive(currentId, name);
    ContainerStyle(
      if isActive then Assign(0.0) else Delay(k.transformDuration, Timing(1.0, 0.0, false)),
      if isActive then Timing(1.0, k.transformDuration, false)
      else if activeId == name then itemScale
      else Assign(1.0))
  }

  /** An item and the provider it is registered with. */
  class HoldItem {
    const name: string
    const internal: Provider.InternalState

    constructor (name: string, internal: Provider.InternalState)
      ensures this.name == name && this.internal == internal
    {
      this.name := name;
      this.internal := internal;
    }

    /** `isActive`, derived from the provider's current id at each read. */
    function Active(): bool
      reads internal
    {
      IsActive(internal.currentId, name)
    }

    /**
     * The reaction to a change of `activeId`. `measured` is what measuring
     * the container returns at that moment (absent when it is not laid out).
     * The pressed item copies its page rectangle into the shared cells; any
     * other item, and a failed measurement, writes nothing.
     */
    method OnActiveIdChange(measured: Option<Measurement>)
      modifies internal`itemRectY, internal`itemRectX, internal`itemRectHeight, internal`itemRectWidth
      ensures internal.activeId == name && measured.Some? ==>
        internal.ItemRect() == Rect(measured.value.pageX, measured.value.pageY,
                                    measured.value.width, measured.value.height)
      ensures !(internal.activeId == name && measured.Some?) ==>
        internal.ItemRect() == old(internal.ItemRect())
    {
      if internal.activeId == name {
        if measured.None? {
          return;
        }
        internal.itemRectY := measured.value.pageY;
        internal.itemRectX := measured.value.pageX;
        internal.itemRectHeight := measured.value.height;
        internal.itemRectWidth := measured.value.width;
      }
    }
  }

  /**
   * An item mounted under a newly created provider. The provider's current
   * id starts as "", so only an item named "" is active before any press.
   */
  method MountUnderFreshProvider(name: string) returns (item: HoldItem)
    ensures fresh(item) && fresh(item.internal) && item.name == name
    ensures item.internal.currentId == "" && item.internal.state == Undetermined
    ensures item.Active() <==> name == ""
  {
    var internal := new Provider.InternalState();
    item := new HoldItem(name, internal);
  }
}
