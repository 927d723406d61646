/**
  `getDataIndex`: the key under which a column's filters are stored. A nested data index
  (an array path) is joined with "."; a plain one is used as it is.
*/
module DataIndex {
  import opened Strings

  /** One step of a data index path: a property name or an array position. */
  datatype Part = Name(name: string) | Position(n: int)

  datatype DataIndex = Single(part: Part) | Path(parts: seq<Part>)

  /** `String(item)`. */
  function PartText(p: Part): string {
    match p
    case Name(s) => s
    case Position(n) => IntToString(n)
  }

  /** The string forms of a path's parts, in order. */
  function Texts(parts: seq<Part>): (ts: seq<string>)
    ensures |ts| == |parts|
    ensures forall i :: 0 <= i < |parts| ==> ts[i] == PartText(parts[i])
  {
    if parts == [] then [] else [PartText(parts[0])] + Texts(parts[1..])
  }

  /** The column key of a data index. */
  function ColumnKey(d: DataIndex): string {
    match d
    case Single(p) => PartText(p)
    case Path(parts) => Join(Texts(parts), '.')
  }

  /** A one-element path names the same column as its element alone; an empty path gives "". */
  lemma ShortPaths(p: Part)
    ensures ColumnKey(Path([p])) == ColumnKey(Single(p))
    ensures ColumnKey(Path([])) == ""
  {
  }

  /** Splitting a path's key on "." gives back the string forms of its parts, provided no
      property name contains ".". */
  lemma KeySplitsIntoParts(parts: seq<Part>)
    requires |parts| >= 1
    requires forall i :: 0 <= i < |parts| ==> parts[i].Name? ==> '.' !in parts[i].name
    ensures Split(ColumnKey(Path(parts)), '.') == Texts(parts)
  {
    var ts := Texts(parts);
    forall i | 0 <= i < |ts| ensures '.' !in ts[i] {
      assert ts[i] == PartText(parts[i]);
    }
    SplitJoin(ts, '.');
  }
}
