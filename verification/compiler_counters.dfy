/**
  The per-compiler counters' record of the method being compiled: a fixed
  `char` buffer filled with `strncpy` and then forcibly NUL-terminated, so an
  over-long method name is silently truncated. C strings are `seq<char>`
  values that end at their first NUL character or, lacking one, at the end
  of the sequence. One Dafny `char` stands for one C `char` byte, so a name
  is counted in bytes: truncation may cut a multi-byte UTF-8 character, and
  the model reproduces that cut only under this byte-per-`char` reading.
 */
module CompilerCounters {

  /** `cmname_buffer_length`: the size of the current-method buffer. */
  const CmnameBufferLength: nat := 160

  const Nul: char := '\0'

  /** `strlen`: the number of characters before the first NUL. */
  function CStrLen(s: seq<char>): (k: nat)
    ensures k <= |s|
    ensures forall i :: 0 <= i < k ==> s[i] != Nul
    ensures k < |s| ==> s[k] == Nul
  {
    if |s| == 0 || s[0] == Nul then 0 else 1 + CStrLen(s[1..])
  }

  /** The characters a reader of the C string sees. */
  function CString(s: seq<char>): seq<char> {
    s[..CStrLen(s)]
  }

  /** The length of a C string is determined by where its first NUL is. */
  lemma CStrLenUnique(s: seq<char>, k: nat)
    requires k <= |s|
    requires forall i :: 0 <= i < k ==> s[i] != Nul
    requires k < |s| ==> s[k] == Nul
    ensures CStrLen(s) == k
  {
  }

  /** What `strncpy` leaves at position `i < n` of the destination. */
  function CopiedChar(src: seq<char>, i: nat): char {
    if i < CStrLen(src) then src[i] else Nul
  }

  /**
    `strncpy(dst, src, n)`: copy characters of `src` up to its terminating NUL
    or until `n` are copied, then pad with NULs up to `n`. Bytes of `dst` from
    `n` on are untouched; when `src` has `n` or more characters, no NUL is written.
   */
  method StrNCpy(dst: seq<char>, src: seq<char>, n: nat) returns (r: seq<char>)
    requires n <= |dst|
    ensures |r| == |dst|
    ensures forall i :: 0 <= i < n ==> r[i] == CopiedChar(src, i)
    ensures forall i :: n <= i < |dst| ==> r[i] == dst[i]
  {
    r := dst;
    var i := 0;
    while i < n && i < |src| && src[i] != Nul
      invariant i <= n && i <= CStrLen(src)
      invariant |r| == |dst|
      invariant forall j :: 0 <= j < i ==> r[j] == CopiedChar(src, j)
      invariant forall j :: i <= j < |dst| ==> r[j] == dst[j]
    {
      r := r[i := src[i]];
      i := i + 1;
    }
    while i < n
      invariant i <= n
      invariant i < n ==> CStrLen(src) <= i
      invariant |r| == |dst|
      invariant forall j :: 0 <= j < i ==> r[j] == CopiedChar(src, j)
      invariant forall j :: i <= j < |dst| ==> r[j] == dst[j]
    {
      r := r[i := Nul];
      i := i + 1;
    }
  }

  /**
    `set_current_method`: copy at most `cmname_buffer_length - 1` characters of
    the name and NUL-terminate the last slot. The buffer then reads as the
    name's longest prefix that fits, followed only by NULs.
   */
  method SetCurrentMethod(buffer: seq<char>, name: seq<char>) returns (r: seq<char>)
    requires |buffer| == CmnameBufferLength
    ensures |r| == CmnameBufferLength
    ensures r[CmnameBufferLength - 1] == Nul
    ensures CStrLen(r) == if CStrLen(name) < CmnameBufferLength - 1 then CStrLen(name) else CmnameBufferLength - 1
    ensures CString(r) == CString(name)[..CStrLen(r)]
    ensures CStrLen(name) < CmnameBufferLength ==> CString(r) == CString(name)
    ensures forall i :: CStrLen(r) <= i < |r| ==> r[i] == Nul
  {
    var copied := StrNCpy(buffer, name, CmnameBufferLength - 1);
    r := copied[CmnameBufferLength - 1 := Nul];
    var k := if CStrLen(name) < CmnameBufferLength - 1 then CStrLen(name) else CmnameBufferLength - 1;
    assert forall i :: 0 <= i < k ==> r[i] == name[i] && r[i] != Nul;
    CStrLenUnique(r, k);
    assert CString(r) == CString(name)[..k];
  }
}
