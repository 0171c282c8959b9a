/** Datatypes and sequence functions shared by every module. */
module Common {
  datatype Option<+T> = None | Some(value: T)

  /** The value of a byte. */
  type Octet = o: int | 0 <= o < 0x100

  /** `s` without the elements at its end that are `blank`. */
  function DropTrailing<T>(s: seq<T>, blank: T -> bool): (r: seq<T>)
    ensures r <= s && (forall i :: |r| <= i < |s| ==> blank(s[i])) && (|r| > 0 ==> !blank(r[|r| - 1]))
  {
    if |s| > 0 && blank(s[|s| - 1]) then DropTrailing(s[..|s| - 1], blank) else s
  }
}
