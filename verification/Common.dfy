/** Small definitions that the other modules share. */
module Common {
  datatype Option<+T> = None | Some(value: T) {
    function GetOr(default: T): T { if Some? then value else default }
  }

  const U64_MAX: nat := 0xFFFF_FFFF_FFFF_FFFF

  /** The result of saturating 64-bit additions whose exact sum is `n`. */
  function Sat(n: nat): nat { if n > U64_MAX then U64_MAX else n }
}
