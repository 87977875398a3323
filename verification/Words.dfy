/** Machine words and the small types every component uses. */
module Words {
  datatype Option<+T> = None | Some(value: T)

  /** What a map holds under a key, if anything. */
  function Lookup<K, V>(m: map<K, V>, key: K): Option<V> {
    if key in m then Some(m[key]) else None
  }

  const MAX_UINT: nat := 0xFFFF_FFFF_FFFF_FFFF
  const TWO_63: nat := 0x8000_0000_0000_0000
  const TWO_64: nat := 0x1_0000_0000_0000_0000

  /** The conversion of an unsigned 64-bit word to a signed one. */
  function Signed(x: nat): int
    requires x < TWO_64
  {
    if x < TWO_63 then x else x - TWO_64
  }

  /** Negation of a signed 64-bit word, which leaves the least word alone. */
  function Negated(x: int): int
    requires -(TWO_63 as int) <= x < TWO_63
  {
    if x == -(TWO_63 as int) then x else -x
  }

  /** Addition of unsigned 64-bit words. */
  function AddWrapped(x: nat, y: nat): nat {
    (x + y) % TWO_64
  }

  /** White space as Unicode has it, which is what Go's `strings.TrimSpace` strips. */
  predicate Space(c: char) {
    var u := c as int;
    || 0x09 <= u <= 0x0D || u == 0x20 || u == 0x85 || u == 0xA0 || u == 0x1680
    || 0x2000 <= u <= 0x200A || u == 0x2028 || u == 0x2029 || u == 0x202F || u == 0x205F || u == 0x3000
  }

  /** Leading and trailing white space removed. */
  function TrimSpace(s: string): string {
    if s == [] then s
    else if Space(s[0]) then TrimSpace(s[1..])
    else if Space(s[|s| - 1]) then TrimSpace(s[..|s| - 1])
    else s
  }
}
