/**
 * Owner-name resolution: turning a story's owner ids into the display
 * string shown next to it, using the cached user directory.
 */
module HashManager {
  import opened Wrappers

  /** A directory value: the person's id and display name. */
  datatype Entry = Entry(id: int, name: string)

  /** The username -> entry cache, in the insertion order Ruby hashes keep. */
  type Directory = seq<(string, Entry)>

  const Unassigned: string := "unassigned"
  const Separator: string := ", "

  /** The index of the first directory entry, in iteration order, whose id is `ownerId`. */
  function FirstMatch(ownerId: int, dir: Directory): (r: Option<nat>)
    ensures r.Some? ==> r.value < |dir| && dir[r.value].1.id == ownerId
    ensures r.Some? ==> forall j :: 0 <= j < r.value ==> dir[j].1.id != ownerId
    ensures r.None? ==> forall j :: 0 <= j < |dir| ==> dir[j].1.id != ownerId
  {
    if dir == [] then None
    else if dir[0].1.id == ownerId then Some(0)
    else match FirstMatch(ownerId, dir[1..])
      case None => None
      case Some(k) => Some(k + 1)
  }

  /** The name `find_name_given_id` yields: the first match's name, or '' when no entry has the id. */
  function NameForId(ownerId: int, dir: Directory): string
  {
    match FirstMatch(ownerId, dir)
    case Some(i) => dir[i].1.name
    case None => ""
  }

  /** `find_name_given_id`: a scan of the directory's values that stops at the first id match. */
  method FindNameGivenId(ownerId: int, dir: Directory) returns (name: string)
    ensures name == NameForId(ownerId, dir)
    ensures (forall j :: 0 <= j < |dir| ==> dir[j].1.id != ownerId) ==> name == ""
    ensures forall i :: 0 <= i < |dir| && dir[i].1.id == ownerId && (forall j :: 0 <= j < i ==> dir[j].1.id != ownerId)
              ==> name == dir[i].1.name
  {
    name := "";
    var i := 0;
    while i < |dir|
      invariant 0 <= i <= |dir|
      invariant forall j :: 0 <= j < i ==> dir[j].1.id != ownerId
      invariant name == ""
    {
      if dir[i].1.id == ownerId {
        name := dir[i].1.name;
        return;
      }
      i := i + 1;
    }
  }

  /** The per-owner names, one per owner id and in the owners' order. */
  function Names(owners: seq<int>, dir: Directory): (names: seq<string>)
    ensures |names| == |owners|
    ensures forall k :: 0 <= k < |owners| ==> names[k] == NameForId(owners[k], dir)
  {
    if owners == [] then [] else [NameForId(owners[0], dir)] + Names(owners[1..], dir)
  }

  /** Ruby's `Array#join(sep)`. */
  function Join(parts: seq<string>, sep: string): string
  {
    if |parts| == 0 then ""
    else if |parts| == 1 then parts[0]
    else parts[0] + sep + Join(parts[1..], sep)
  }

  /** `get_owner_name_from_ids`. */
  function OwnerNames(owners: seq<int>, dir: Directory): (r: string)
    ensures owners == [] ==> r == "unassigned"
    ensures |owners| == 1 ==> r == NameForId(owners[0], dir)
  {
    if owners == [] then Unassigned else Join(Names(owners, dir), Separator)
  }

  lemma {:induction false} JoinAppend(parts: seq<string>, p: string, sep: string)
    requires parts != []
    ensures Join(parts + [p], sep) == Join(parts, sep) + sep + p
  {
    if |parts| == 1 {
      assert parts + [p] == [parts[0], p];
    } else {
      assert (parts + [p])[1..] == parts[1..] + [p];
      JoinAppend(parts[1..], p, sep);
    }
  }

  /** Adding one more owner appends a separator and that owner's name, whatever came before. */
  lemma OwnerNamesAppend(owners: seq<int>, ownerId: int, dir: Directory)
    requires owners != []
    ensures OwnerNames(owners + [ownerId], dir) == OwnerNames(owners, dir) + ", " + NameForId(ownerId, dir)
  {
    assert Names(owners + [ownerId], dir) == Names(owners, dir) + [NameForId(ownerId, dir)];
    JoinAppend(Names(owners, dir), NameForId(ownerId, dir), Separator);
  }

  /** An owner missing from the directory leaves an empty slot, but its separator stays. */
  lemma OwnerNamesMissing(owners: seq<int>, ownerId: int, dir: Directory)
    requires owners != []
    requires forall j :: 0 <= j < |dir| ==> dir[j].1.id != ownerId
    ensures OwnerNames(owners + [ownerId], dir) == OwnerNames(owners, dir) + ", "
  {
    OwnerNamesAppend(owners, ownerId, dir);
  }

  /** Splits a string at every ", ": the inverse of joining with the separator. */
  function SplitOnSeparator(s: string): (parts: seq<string>)
    ensures |parts| >= 1
  {
    if |s| == 0 then [""]
    else if |s| >= 2 && s[0] == ',' && s[1] == ' ' then [""] + SplitOnSeparator(s[2..])
    else
      var rest := SplitOnSeparator(s[1..]);
      [[s[0]] + rest[0]] + rest[1..]
  }

  lemma {:induction false} SplitPlain(p: string, tail: string)
    requires forall i :: 0 <= i < |p| ==> p[i] != ','
    ensures SplitOnSeparator(p + tail) == [p + SplitOnSeparator(tail)[0]] + SplitOnSeparator(tail)[1..]
  {
    if p != [] {
      assert (p + tail)[1..] == p[1..] + tail;
      SplitPlain(p[1..], tail);
      assert [p[0]] + (p[1..] + SplitOnSeparator(tail)[0]) == p + SplitOnSeparator(tail)[0];
    } else {
      var rest := SplitOnSeparator(tail);
      assert p + tail == tail;
      assert p + rest[0] == rest[0];
      assert [p + rest[0]] + rest[1..] == rest;
    }
  }

  lemma {:induction false} SplitJoin(parts: seq<string>)
    requires parts != []
    requires forall k, i :: 0 <= k < |parts| && 0 <= i < |parts[k]| ==> parts[k][i] != ','
    ensures SplitOnSeparator(Join(parts, Separator)) == parts
  {
    if |parts| == 1 {
      SplitPlain(parts[0], "");
      assert parts[0] + "" == parts[0];
    } else {
      var tail := Separator + Join(parts[1..], Separator);
      assert Join(parts, Separator) == parts[0] + tail;
      SplitPlain(parts[0], tail);
      assert tail[2..] == Join(parts[1..], Separator);
      SplitJoin(parts[1..]);
      assert parts[0] + "" == parts[0];
    }
  }

  /**
   * When no display name contains a comma, the joined string splits back into
   * exactly one part per owner id, in order, each that owner's name ('' when absent).
   */
  lemma OwnerNamesParts(owners: seq<int>, dir: Directory)
    requires owners != []
    requires forall j, i :: 0 <= j < |dir| && 0 <= i < |dir[j].1.name| ==> dir[j].1.name[i] != ','
    ensures SplitOnSeparator(OwnerNames(owners, dir)) == Names(owners, dir)
    ensures |SplitOnSeparator(OwnerNames(owners, dir))| == |owners|
  {
    var names := Names(owners, dir);
    forall k, i | 0 <= k < |names| && 0 <= i < |names[k]|
      ensures names[k][i] != ','
    {
      match FirstMatch(owners[k], dir)
      case Some(j) =>
      case None =>
    }
    SplitJoin(names);
  }
}
