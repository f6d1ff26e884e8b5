/** The small-string-optimised byte buffer of vstr.c. */
module Vstrs {
  import opened Objects

  const MAX_SMALL: nat := 23 // VSTR_MAX_SMALL_SIZE

  class Vstr {
    const small: array<char>
    var isLarge: bool
    var smallAvail: nat
    var data: array<char>
    var len: nat
    var cap: nat
    /** The inline buffer has held nothing but what was pushed since it was zeroed. */
    ghost var clean: bool

    ghost predicate Valid()
      reads this, small, data
    {
      small.Length == MAX_SMALL && smallAvail <= MAX_SMALL && small != data &&
      (isLarge ==> cap == data.Length && len < cap && len <= MAX_TEXT &&
                   forall i :: len <= i < cap ==> data[i] == '\0') &&
      (clean && !isLarge ==> forall i :: MAX_SMALL - smallAvail <= i < MAX_SMALL ==> small[i] == '\0')
    }

    ghost function Contents(): (s: string)
      reads this, small, data
      requires Valid()
      ensures |s| <= MAX_TEXT
    {
      if isLarge then data[..len] else small[..MAX_SMALL - smallAvail]
    }

    /** The byte that holds `is_large` and `small_avail`. */
    ghost function FlagByte(): nat
      reads this
    {
      (if isLarge then 1 else 0) + 2 * smallAvail
    }

    /** The byte of the structure that follows the contents. */
    ghost function Terminator(): char
      reads this, small, data
      requires Valid()
    {
      if isLarge then data[len]
      else if smallAvail > 0 then small[MAX_SMALL - smallAvail]
      else FlagByte() as char
    }

    /** C code may read the contents as a NUL-terminated string, even when the
        inline buffer is full. */
    lemma Terminated()
      requires Valid() && (clean || isLarge)
      ensures Terminator() == '\0'
    {
    }

    constructor ()
      ensures Valid() && Contents() == "" && clean && !isLarge
      ensures fresh(small) && fresh(data)
    {
      small := new char[MAX_SMALL](_ => '\0');
      data := new char[0];
      isLarge, smallAvail, len, cap, clean := false, MAX_SMALL, 0, 0, true;
    }

    /** `vstr_new_len`: large at once when more than the inline size is wanted. */
    constructor WithLen(n: nat)
      requires n <= MAX_TEXT
      ensures Valid() && Contents() == "" && clean && isLarge == (n > 23)
      ensures fresh(small) && fresh(data)
    {
      small := new char[MAX_SMALL](_ => '\0');
      isLarge := n > MAX_SMALL;
      smallAvail := if n > MAX_SMALL then 0 else MAX_SMALL;
      data := new char[if n > MAX_SMALL then n + 1 else 0](_ => '\0');
      cap := if n > MAX_SMALL then n + 1 else 0;
      len, clean := 0, true;
    }

    /** Copies the first `len` bytes to a zeroed buffer of `newCap` bytes. */
    method Realloc(newCap: nat)
      requires Valid() && isLarge && newCap > len
      modifies this
      ensures Valid() && isLarge && fresh(data) && cap == newCap
      ensures Contents() == old(Contents()) && clean == old(clean)
    {
      var tmp := new char[newCap];
      forall i | 0 <= i < newCap {
        tmp[i] := if i < len then data[i] else '\0';
      }
      data := tmp;
      cap := newCap;
    }

    /** The switch from the inline buffer to a heap buffer of `newCap` bytes. */
    method MakeLarge(newCap: nat)
      requires Valid() && !isLarge && newCap > MAX_SMALL - smallAvail
      modifies this
      ensures Valid() && isLarge && fresh(data) && cap == newCap
      ensures Contents() == old(Contents())
    {
      var n := MAX_SMALL - smallAvail;
      var tmp := new char[newCap];
      forall i | 0 <= i < newCap {
        tmp[i] := if i < n then small[i] else '\0';
      }
      data := tmp;
      isLarge, len, cap, clean := true, n, newCap, false;
    }

    method LgPushChar(c: char) returns (res: int)
      requires Valid() && isLarge
      modifies this, data
      ensures Valid() && isLarge && (data == old(data) || fresh(data))
      ensures res == if |old(Contents())| + 1 <= MAX_TEXT then 0 else -1
      ensures Contents() == if res == 0 then old(Contents()) + [c] else old(Contents())
    {
      if len == cap - 1 {
        Realloc(2 * cap);
      }
      if len + 1 > MAX_TEXT {
        return -1;
      }
      data[len] := c;
      len := len + 1;
      return 0;
    }

    method LgPushString(s: string) returns (res: int)
      requires Valid() && isLarge
      modifies this, data
      ensures Valid() && isLarge && (data == old(data) || fresh(data))
      ensures res == if |old(Contents())| + |s| <= MAX_TEXT then 0 else -1
      ensures Contents() == if res == 0 then old(Contents()) + s else old(Contents())
    {
      if len + |s| > MAX_TEXT {
        return -1;
      }
      if len + |s| > cap - 1 {
        Realloc(cap + |s|);
      }
      forall i | 0 <= i < |s| {
        data[len + i] := s[i];
      }
      len := len + |s|;
      return 0;
    }

    method PushChar(c: char) returns (res: int)
      requires Valid()
      modifies this, small, data
      ensures Valid() && (data == old(data) || fresh(data))
      ensures res == if |old(Contents())| + 1 <= 0xff_ffff_ffff_ffff then 0 else -1
      ensures Contents() == if res == 0 then old(Contents()) + [c] else old(Contents())
      ensures !isLarge ==> clean == old(clean)
      ensures isLarge == (old(isLarge) || |old(Contents())| == 23)
    {
      if isLarge {
        res := LgPushChar(c);
        return;
      }
      if smallAvail > 0 {
        small[MAX_SMALL - smallAvail] := c;
        smallAvail := smallAvail - 1;
        return 0;
      }
      MakeLarge(MAX_SMALL + 2);
      res := LgPushChar(c);
    }

    method PushString(s: string) returns (res: int)
      requires Valid()
      modifies this, small, data
      ensures Valid() && (data == old(data) || fresh(data))
      ensures res == if |old(Contents())| + |s| <= MAX_TEXT then 0 else -1
      ensures Contents() == if res == 0 then old(Contents()) + s else old(Contents())
      ensures !isLarge ==> clean == old(clean)
      ensures isLarge == (old(isLarge) || |old(Contents())| + |s| > MAX_SMALL)
    {
      if isLarge {
        res := LgPushString(s);
        return;
      }
      if |s| <= smallAvail {
        forall i | 0 <= i < |s| {
          small[MAX_SMALL - smallAvail + i] := s[i];
        }
        smallAvail := smallAvail - |s|;
        return 0;
      }
      MakeLarge(MAX_SMALL - smallAvail + 1);
      res := LgPushString(s);
    }

    /** Empties the buffer. The bytes of a released heap header stay behind in the
        inline buffer, so it is no longer known to be zeroed. */
    method Reset()
      requires Valid()
      modifies this, small
      ensures Valid() && Contents() == "" && !isLarge && data == old(data)
      ensures clean == !old(isLarge)
    {
      if isLarge {
        isLarge, clean := false, false;
      } else {
        forall i | 0 <= i < MAX_SMALL {
          small[i] := '\0';
        }
        clean := true;
      }
      smallAvail := MAX_SMALL;
    }

    /** `vstr_free`: the length is forgotten, the inline bytes stay as they are. */
    method Free()
      requires Valid()
      modifies this
      ensures Valid() && Contents() == "" && !isLarge && data == old(data)
      ensures small[..] == old(small[..]) && clean == (old(clean && !isLarge) && old(Contents()) == "")
    {
      clean := clean && !isLarge && smallAvail == MAX_SMALL;
      isLarge, smallAvail := false, MAX_SMALL;
    }
  }
}
