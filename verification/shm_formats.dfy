/**
 The pixel formats a display advertises beyond the default ones: 32-bit numbers in a
 wl_array.
 */
module ShmFormats {
  import opened Words
  import opened Arrays

  class WlDisplay {
    const additionalShmFormats: WlArray

    ghost predicate Valid()
      reads additionalShmFormats, additionalShmFormats.data
    {
      additionalShmFormats.Valid() && Whole(additionalShmFormats.size, 4)
    }

    /** The bytes read as numbers. */
    ghost function Formats(): seq<nat>
      requires Valid()
      reads additionalShmFormats, additionalShmFormats.data
    {
      additionalShmFormats.Elems(4)
    }

    constructor (n: WordSize)
      ensures Valid() && Formats() == []
      ensures fresh(additionalShmFormats) && fresh(additionalShmFormats.data)
    {
      additionalShmFormats := new WlArray.Init(n);
    }

    /**
     wl_display_add_shm_format: false if and only if memory is needed and not granted; the
     list is then as it was.
     */
    method AddShmFormat(format: uint32, granted: bool) returns (ok: bool)
      requires Valid() && additionalShmFormats.size + 4 <= Half(additionalShmFormats.n)
      modifies additionalShmFormats, additionalShmFormats.data
      ensures ok <==> granted || old(additionalShmFormats.Fits(4))
      ensures Valid() && Formats() == if ok then old(Formats()) + [format] else old(Formats())
      ensures additionalShmFormats.data == old(additionalShmFormats.data) || fresh(additionalShmFormats.data)
    {
      ghost var was := Formats();
      ok := additionalShmFormats.AddElement(4, granted);
      if ok {
        ghost var grown := Formats();
        additionalShmFormats.Store(4, Count(additionalShmFormats.size, 4) - 1, format);
        assert grown[|was| := format] == was + [format];
      }
    }
  }
}
