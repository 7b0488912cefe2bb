/** WINDOW_SIZE_DESC (DefineWindows.h): a window's client size as two
    UINTs, converted to and from a RECT of LONGs. */
module WindowSize {
  const U32: nat := 0x1_0000_0000
  const LongMin: int := -0x8000_0000
  const LongMax: int := 0x7FFF_FFFF

  predicate IsLong(v: int) {
    LongMin <= v <= LongMax
  }

  /** static_cast<LONG> of a UINT: two's complement reinterpretation. */
  function ToLong(u: nat): (r: int)
    requires u < U32
    ensures IsLong(r)
    ensures r % U32 == u
    ensures u <= LongMax ==> r == u
  {
    if u <= LongMax then u else u - U32
  }

  /** Assignment of a LONG difference to a UINT: reduction mod 2^32. */
  function ToUint(v: int): (r: nat)
    ensures r < U32
  {
    v % U32
  }

  datatype Rect = Rect(left: int, top: int, right: int, bottom: int)

  class WindowSizeDesc {
    var width: nat
    var height: nat

    ghost predicate Valid()
      reads this
    {
      width < U32 && height < U32
    }

    constructor (width: nat, height: nat)
      requires width < U32 && height < U32
      ensures Valid() && this.width == width && this.height == height
    {
      this.width := width;
      this.height := height;
    }

    /** GetRect: the origin and the size as LONGs; the descriptor is read
      only. */
    function GetRect(): (r: Rect)
      requires Valid()
      reads this
      ensures r.left == 0 && r.top == 0
      ensures IsLong(r.right) && IsLong(r.bottom)
      ensures r.right % U32 == width && r.bottom % U32 == height
      ensures width <= LongMax && height <= LongMax ==> r.right == width && r.bottom == height
    {
      Rect(0, 0, ToLong(width), ToLong(height))
    }

    /** FromRect: the extents right - left and bottom - top, stored as
      UINTs; nothing else changes. */
    method FromRect(rect: Rect)
      modifies this
      ensures Valid()
      ensures width == ToUint(rect.right - rect.left) && height == ToUint(rect.bottom - rect.top)
    {
      width := ToUint(rect.right - rect.left);
      height := ToUint(rect.bottom - rect.top);
    }
  }

  /** FromRect(GetRect()) gives the size back; the reinterpretation as LONG
      is undone by the reduction mod 2^32, so this holds even for sizes past
      LONG's range. */
  lemma RectRoundTrip(d: WindowSizeDesc)
    requires d.Valid()
    ensures var rc := d.GetRect();
      ToUint(rc.right - rc.left) == d.width && ToUint(rc.bottom - rc.top) == d.height
  {
  }

  /** The same, through the class: a descriptor that reads its own rect
      back keeps its size. */
  method RoundTripThroughRect(d: WindowSizeDesc)
    requires d.Valid()
    modifies d
    ensures d.width == old(d.width) && d.height == old(d.height)
  {
    var r := d.GetRect();
    RectRoundTrip(d);
    d.FromRect(r);
  }

  /** A rectangle that is not at the origin gives its extent, not its
      corner. */
  lemma FromRectIsExtent(rect: Rect)
    requires rect.left <= rect.right < rect.left + U32
    ensures ToUint(rect.right - rect.left) == rect.right - rect.left
  {
  }
}
