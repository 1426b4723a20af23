/**
 * The growable string buffer of `sbuf.h` / `sbuf.c`. The buffer owns a
 * character array `data` of `size` bytes (or none at all), holds `next`
 * characters at its start followed by a terminator, and grows in 64-byte
 * steps. The length is kept in `next`, not found by looking for the
 * terminator, so the model does not ask the held characters to be free of
 * NUL. The output of `vsnprintf` is an input here: `Some(text)` is the
 * formatted text, `None` a negative return (a formatting error).
 */
module StringBuffer {

  import opened Util

  /** The largest length `vsnprintf` can report, since it returns an `int`. */
  const INT_MAX: nat := 0x7fff_ffff

  /** log2 of the growth step. */
  const ALIGN_POWER: nat := 6

  lemma {:induction false} Pow2Of6()
    ensures Pow2(ALIGN_POWER) == 64
  {
    assert Pow2(0) == 1;
    assert Pow2(3) == 8;
  }

  /**
   * What `vsnprintf` reports for a formatted text: the text, or a negative
   * return when the length does not fit its `int` result.
   */
  function Reported(text: string): Option<string>
  {
    if |text| <= INT_MAX then Some(text) else None
  }

  /** What sbuf_format adds to the contents for a formatted text: all of it, or nothing when `vsnprintf` fails. */
  function Put(text: string): (r: string)
    ensures r == text || r == ""
  {
    if |text| <= INT_MAX then text else ""
  }

  class SBuf {
    var data: array?<char>
    var size: nat
    var next: nat
    /** The characters the buffer holds before its terminator, as the abstract value of the structure. */
    ghost var contents: string

    /** The shape the fields keep between any two statements of the C code. */
    ghost predicate Shape()
      reads this
    {
      && (data == null <==> size == 0)
      && (data != null ==> data.Length == size && next < size)
      && (data == null ==> next == 0)
    }

    /** Between calls the first `next` bytes are the contents, terminated at `next`. */
    ghost predicate Valid()
      reads this, data
    {
      && Shape() && |contents| == next
      && (data != null ==> data[next] == '\0' && data[..next] == contents)
    }

    /**
     * `text` can be appended: the grown buffer, a whole number of 64-byte
     * steps, still has a size that a `size_t` holds.
     */
    ghost predicate Room(text: string)
      reads this
    {
      next + |text| + 64 < SIZE_MOD
    }

    /** SBUF_INIT: no memory, no contents. */
    constructor ()
      ensures Valid() && data == null && size == 0 && next == 0
      ensures contents == ""
    {
      data := null;
      size := 0;
      next := 0;
      contents := "";
    }

    /** sbuf_init: resets the structure to SBUF_INIT. */
    method Init()
      modifies this
      ensures Valid() && data == null && size == 0 && next == 0
      ensures contents == ""
    {
      data := null;
      size := 0;
      next := 0;
      contents := "";
    }

    /** sbuf_destroy: releases the memory and leaves a reusable empty buffer. */
    method Destroy()
      modifies this
      ensures Valid() && data == null && size == 0 && next == 0
      ensures contents == "" && IsEmpty()
    {
      data := null;
      size := 0;
      next := 0;
      contents := "";
    }

    /**
     * sbuf_string: the C string held in the buffer, and the empty string when
     * no memory has been allocated yet.
     */
    function String(): (r: string)
      requires Valid()
      reads this, data
      ensures r == contents
    {
      if data != null && size > 0 then data[..next] else ""
    }

    /** sbuf_is_empty: no memory, no capacity or no contents; it is the empty string. */
    function IsEmpty(): (r: bool)
      requires Valid()
      reads this, data
      ensures r <==> contents == ""
    {
      data == null || size == 0 || next == 0
    }

    /** sbuf_length: the length of the string, not the capacity of the buffer. */
    function Length(): (r: nat)
      requires Valid()
      reads this, data
      ensures r == |contents|
      ensures data != null ==> r < size
    {
      next
    }

    /** sbuf_clear: the string becomes empty and the memory is kept. */
    method Clear()
      requires Valid()
      modifies this, data
      ensures Valid() && data == old(data) && size == old(size) && next == 0
      ensures contents == ""
    {
      if data != null && size > 0 {
        data[0] := '\0';
      }
      next := 0;
      contents := "";
    }

    /**
     * __sbuf_ensure_capacity: when fewer than `capacity` bytes remain, grows the
     * buffer to `align_pow2(next + capacity, 6)` bytes, keeping its old bytes;
     * `allocates` is whether `realloc` succeeds, and a failed `realloc` leaves
     * everything as it was. The result is whether the returned pointer is not NULL.
     */
    method EnsureCapacity(capacity: nat, allocates: bool) returns (r: bool)
      requires Shape() && next + capacity + 63 < SIZE_MOD
      modifies this
      ensures Shape() && next == old(next) && contents == old(contents)
      ensures old(size - next) >= capacity ==> data == old(data) && size == old(size) && r == (data != null)
      ensures old(size - next) < capacity && allocates ==>
        && fresh(data) && size == AlignPow2(next + capacity, ALIGN_POWER) && r
        && old(size) < size && (old(data) != null ==> data[..old(size)] == old(data[..]))
      ensures old(size - next) < capacity && !allocates ==> data == old(data) && size == old(size) && !r
      ensures r ==> size - next >= capacity
    {
      if size - next < capacity {
        var newSize := AlignPow2(next + capacity, ALIGN_POWER);
        Pow2Of6();
        AlignRoundsUp(next + capacity, ALIGN_POWER);
        if allocates {
          var grown := new char[newSize];
          var i := 0;
          while i < size
            invariant data == old(data) && size == old(size) && next == old(next) && contents == old(contents)
            invariant 0 <= i <= size < grown.Length
            invariant data != null ==> grown[..i] == data[..i]
          {
            grown[i] := data[i];
            i := i + 1;
          }
          data := grown;
          size := newSize;
          r := true;
        } else {
          r := false;
        }
      } else {
        r := data != null;
      }
    }

    /**
     * What `vsnprintf(data + next, size - next, ...)` stores when the formatted
     * text is `text`: as much of the text as fits before a terminator, nothing
     * when no byte is available.
     */
    method PrintInto(text: string)
      requires Shape()
      modifies data
      ensures data != null ==> data[..next] == old(data[..next])
      ensures data != null && |text| < size - next ==> data[next..next + |text|] == text && data[next + |text|] == '\0'
    {
      if data != null {
        var k := if |text| < size - next then |text| else size - next - 1;
        var i := 0;
        while i < k
          invariant 0 <= i <= k
          invariant data[..next] == old(data[..next])
          invariant data[next..next + i] == text[..i]
        {
          data[next + i] := text[i];
          i := i + 1;
        }
        data[next + k] := '\0';
      }
    }

    /**
     * sbuf_vformat / sbuf_format: appends the formatted text, growing the
     * buffer until it fits. Memory allocation is taken to succeed.
     */
    method Format(formatted: Option<string>) returns (ok: bool)
      requires Valid()
      requires formatted.Some? ==> |formatted.value| <= INT_MAX
      requires formatted.Some? ==> next + |formatted.value| + 64 < SIZE_MOD
      modifies this, data
      ensures Valid()
      ensures ok == formatted.Some?
      ensures ok ==> contents == old(contents) + formatted.value && data != null
      ensures !ok ==> contents == old(contents) && data == old(data) && size == old(size)
      ensures data == old(data) || fresh(data)
    {
      if formatted.None? {
        return false;
      }
      var text := formatted.value;
      ghost var prefix := contents;
      while true
        invariant Shape() && next == old(next) && contents == prefix && |prefix| == next
        invariant data != null ==> data[..next] == prefix
        invariant data == old(data) || fresh(data)
        invariant next + |text| + 64 < SIZE_MOD
        decreases if |text| < size - next then 0 else 1
      {
        var avail := size - next;
        PrintInto(text);
        if |text| < avail {
          assert data[..next + |text|] == data[..next] + data[next..next + |text|];
          next := next + |text|;
          contents := contents + text;
          return true;
        }
        var _ := EnsureCapacity(|text| + 1, true);
      }
    }

    /** sbuf_append: appends a copy of the string ("%s"). */
    method Append(str: string) returns (ok: bool)
      requires Valid() && Room(str)
      modifies this, data
      ensures Valid()
      ensures ok <==> |str| <= INT_MAX
      ensures ok ==> contents == old(contents) + str
      ensures !ok ==> contents == old(contents)
      ensures data == old(data) || fresh(data)
    {
      ok := Format(Reported(str));
    }

    /** sbuf_set_vformat / sbuf_set_format: clears, then formats. */
    method SetFormat(formatted: Option<string>) returns (ok: bool)
      requires Valid()
      requires formatted.Some? ==> |formatted.value| <= INT_MAX
      modifies this, data
      ensures Valid()
      ensures ok == formatted.Some?
      ensures contents == if ok then formatted.value else ""
      ensures data == old(data) || fresh(data)
    {
      Clear();
      ok := Format(formatted);
    }

    /** sbuf_set: the buffer holds exactly a copy of the string. */
    method Set(str: string) returns (ok: bool)
      requires Valid()
      modifies this, data
      ensures Valid()
      ensures ok <==> |str| <= INT_MAX
      ensures contents == if ok then str else ""
      ensures data == old(data) || fresh(data)
    {
      ok := SetFormat(Reported(str));
    }
  }

  /**
   * format_string: formats into a fresh buffer and hands over its contents;
   * a failure releases the buffer and yields NULL.
   */
  method FormatString(formatted: Option<string>) returns (r: Option<string>)
    requires formatted.Some? ==> |formatted.value| <= INT_MAX
    ensures r == formatted
  {
    var sb := new SBuf();
    assert sb.String() == "";
    var ok := sb.Format(formatted);
    assert ok ==> sb.String() == formatted.value;
    // A formatting error is reported by the first vsnprintf, before any
    // allocation, so the buffer release of the failure path has nothing to do.
    assert !ok ==> sb.data == null;
    r := if ok then Some(sb.String()) else None;
  }
}
