/** Shared vocabulary: optional values, block positions, duplicate-free
    sequences, Java's integer widths, and the two string helpers the source
    relies on (decimal formatting of an int and String.isBlank). */
module Common {

  /** Stands for a Java reference that may be null. */
  datatype Option<T> = None | Some(value: T)

  /** A unique id of an entity (java.util.UUID), kept abstract. */
  type Uuid = int

  /** A block position (BlockPos): three Java ints. */
  datatype Pos = Pos(x: int, y: int, z: int)

  function Offset(p: Pos, d: Pos): Pos {
    Pos(p.x + d.x, p.y + d.y, p.z + d.z)
  }

  /** BlockPos.up(): one block higher. */
  function Up(p: Pos): Pos {
    Pos(p.x, p.y + 1, p.z)
  }

  function Abs(n: int): nat {
    if n < 0 then -n else n
  }

  /** BlockPos.getManhattanDistance. */
  function Manhattan(a: Pos, b: Pos): nat {
    Abs(a.x - b.x) + Abs(a.y - b.y) + Abs(a.z - b.z)
  }

  /** BlockPos.getSquaredDistance between two block positions. */
  function SquaredDistance(a: Pos, b: Pos): nat {
    (a.x - b.x) * (a.x - b.x) + (a.y - b.y) * (a.y - b.y) + (a.z - b.z) * (a.z - b.z)
  }

  /** Direction.values() in declaration order: DOWN, UP, NORTH, SOUTH, WEST, EAST. */
  const Directions: seq<Pos> :=
    [Pos(0, -1, 0), Pos(0, 1, 0), Pos(0, 0, -1), Pos(0, 0, 1), Pos(-1, 0, 0), Pos(1, 0, 0)]

  predicate IsInt32(n: int) {
    -0x8000_0000 <= n < 0x8000_0000
  }

  predicate IsInt64(n: int) {
    -0x8000_0000_0000_0000 <= n < 0x8000_0000_0000_0000
  }

  predicate NoDup<T(==)>(s: seq<T>) {
    forall i, j :: 0 <= i < j < |s| ==> s[i] != s[j]
  }

  function Elems<T>(s: seq<T>): set<T> {
    set i | 0 <= i < |s| :: s[i]
  }

  /** A list without repeats has as many elements as entries. */
  lemma {:induction false} NoDupCard<T>(s: seq<T>)
    requires NoDup(s)
    ensures |Elems(s)| == |s|
  {
    if |s| > 0 {
      NoDupCard(s[1..]);
      assert Elems(s) == {s[0]} + Elems(s[1..]) by {
        forall x | x in Elems(s) ensures x in {s[0]} + Elems(s[1..]) {
          var i :| 0 <= i < |s| && s[i] == x;
          if i > 0 {
            assert s[1..][i - 1] == x;
          }
        }
      }
      assert s[0] !in Elems(s[1..]);
    }
  }

  /** The six neighbours of a block are pairwise distinct. */
  lemma NeighboursDistinct(p: Pos)
    ensures forall i, j :: 0 <= i < j < 6 ==> Offset(p, Directions[i]) != Offset(p, Directions[j])
  {
  }

  /* ---------------- strings ---------------- */

  function DigitChar(d: nat): char
    requires d < 10
  {
    "0123456789"[d]
  }

  function NatToString(n: nat): (s: string)
    ensures |s| > 0
    ensures forall i :: 0 <= i < |s| ==> '0' <= s[i] <= '9'
    decreases n
  {
    if n < 10 then [DigitChar(n)] else NatToString(n / 10) + [DigitChar(n % 10)]
  }

  /** The decimal value of a string of digits; the inverse of NatToString. */
  function DigitsValue(s: string): nat
    requires forall i :: 0 <= i < |s| ==> '0' <= s[i] <= '9'
  {
    if |s| == 0 then 0 else 10 * DigitsValue(s[..|s| - 1]) + (s[|s| - 1] as int - '0' as int)
  }

  /** Java's decimal conversion of an int ("" + n). */
  function IntToString(n: int): string {
    if n < 0 then "-" + NatToString(-n) else NatToString(n)
  }

  lemma {:induction false} NatToStringValue(n: nat)
    ensures DigitsValue(NatToString(n)) == n
    decreases n
  {
    if n >= 10 {
      NatToStringValue(n / 10);
      var s := NatToString(n);
      assert s[..|s| - 1] == NatToString(n / 10);
    }
  }

  /** Character.isWhitespace: Unicode space, line and paragraph separators
      other than the three no-break spaces, plus the ASCII controls
      TAB, LF, VT, FF, CR and FS, GS, RS, US. */
  predicate IsJavaWhitespace(c: char) {
    || c == ' ' || c == '\t' || c == '\n' || c == '\U{000B}' || c == '\U{000C}' || c == '\r'
    || ('\U{001C}' <= c <= '\U{001F}')
    || c == '\U{1680}'
    || ('\U{2000}' <= c <= '\U{2006}') || ('\U{2008}' <= c <= '\U{200A}')
    || c == '\U{2028}' || c == '\U{2029}' || c == '\U{205F}' || c == '\U{3000}'
  }

  /** String.isBlank: empty or made only of whitespace. */
  predicate IsBlank(s: string) {
    forall i :: 0 <= i < |s| ==> IsJavaWhitespace(s[i])
  }

  /** A name is "missing" when it is null or blank. */
  predicate NameMissing(name: Option<string>) {
    name.None? || IsBlank(name.value)
  }

  /** The default entry name "Pad x y z". */
  function DefaultPadName(p: Pos): (s: string)
    ensures !IsBlank(s)
  {
    var s := "Pad " + IntToString(p.x) + " " + IntToString(p.y) + " " + IntToString(p.z);
    assert s[0] == 'P' && !IsJavaWhitespace(s[0]);
    s
  }
}
