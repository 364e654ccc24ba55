/** The listing an operator reads: one line for each backup that the index or a destination knows. */
module Listing {
  import opened Text
  import opened Clock
  import opened Paths
  import opened Roots
  import opened Ordering
  import opened CatalogIndex
  import M = Manifests
  import F = Filesystems

  datatype Archive = Archive(path: string, bytes: int, at: Instant)

  /** A destination: what it lists under a prefix, and the manifest beside an archive, if one can be read. */
  datatype Destination = Destination(id: string, archives: string -> seq<Archive>,
      manifest: string -> Option<M.Manifest>)

  datatype Listed = Listed(backup: Backup, catalogued: bool, present: bool)

  /** A listing, an identifier nobody declared, or a catalogue or a destination that could not be read. */
  datatype Result = Listing(lines: seq<Listed>) | NoSuchDestination | Unreadable

  /** An archive that says what it is, on the destination that holds it. */
  datatype Found = Found(destination: string, archive: Archive, identity: Identity, manifest: Option<M.Manifest>)

  /** The line of a file without an entry: never verified, whatever its manifest claims. */
  function Describe(f: Found): Listed {
    var named := M.Backup(f.identity.id, f.identity.database, "", f.identity.at, 0,
                          0, f.archive.bytes, "", "", M.NotVerified, 0, "", []);
    var described :=
      match f.manifest
      case None => named
      case Some(m) =>
        var b := M.BackupOf(m).(verified := M.NotVerified, verifiedAt := 0);
        if b.storedBytes == 0 then b.(storedBytes := f.archive.bytes) else b;
    Listed(described.(locations := [M.Location(f.destination, f.archive.path, f.archive.bytes, f.archive.at)]),
           false, true)
  }

  predicate LineBefore(a: Listed, b: Listed) {
    CatalogIndex.Before(a.backup, b.backup)
  }

  // ------------------------------------------------------------------ what a listing is

  /** The archives of a listing that say what they are, in its order. */
  function FoundIn(d: Destination, archives: seq<Archive>): seq<Found> {
    if archives == [] then []
    else
      var last := archives[|archives| - 1];
      FoundIn(d, archives[..|archives| - 1])
      + match Identify(last.path) case Some(identity) => [FoundAt(d, last, identity)] case None => []
  }

  function FoundAt(d: Destination, archive: Archive, identity: Identity): Found {
    Found(d.id, archive, identity, d.manifest(archive.path))
  }

  function FoundOn(destinations: seq<Destination>, prefix: string): seq<Found> {
    if destinations == [] then []
    else
      var last := destinations[|destinations| - 1];
      FoundOn(destinations[..|destinations| - 1], prefix) + FoundIn(last, last.archives(prefix))
  }

  predicate IsIndexed(indexed: seq<Backup>, id: string) {
    exists b | b in indexed :: b.id == id
  }

  predicate IsFound(found: seq<Found>, id: string) {
    exists f | f in found :: f.identity.id == id
  }

  function IndexedAs(indexed: seq<Backup>, id: string): (b: Backup)
    requires IsIndexed(indexed, id)
    ensures b in indexed && b.id == id
  {
    var last := indexed[|indexed| - 1];
    if last.id == id then last
    else
      assert indexed == indexed[..|indexed| - 1] + [last];
      IndexedAs(indexed[..|indexed| - 1], id)
  }

  /** The first archive that says it is `id`. */
  function FoundAs(found: seq<Found>, id: string): (f: Found)
    requires IsFound(found, id)
    ensures f in found && f.identity.id == id
  {
    var front, last := found[..|found| - 1], found[|found| - 1];
    assert found == front + [last];
    if IsFound(front, id) then FoundAs(front, id) else last
  }

  predicate IsListable(indexed: seq<Backup>, found: seq<Found>, id: string) {
    IsIndexed(indexed, id) || IsFound(found, id)
  }

  /** The one line of an identifier: from the index if it is there, else from the first archive found. */
  function LineOf(indexed: seq<Backup>, found: seq<Found>, id: string): Listed
    requires IsListable(indexed, found, id)
  {
    if IsIndexed(indexed, id) then Listed(IndexedAs(indexed, id), true, IsFound(found, id))
    else Describe(FoundAs(found, id))
  }

  predicate IsOf(database: string, line: Listed) {
    database == "" || line.backup.database == database
  }

  ghost predicate IsEnumeration(indexed: seq<Backup>, found: seq<Found>, order: seq<string>) {
    && (forall i, j | 0 <= i < j < |order| :: order[i] != order[j])
    && forall id :: id in order <==> IsListable(indexed, found, id)
  }

  function LinesOf(indexed: seq<Backup>, found: seq<Found>, database: string, order: seq<string>): seq<Listed>
    requires forall id | id in order :: IsListable(indexed, found, id)
  {
    if order == [] then []
    else
      var front, last := order[..|order| - 1], order[|order| - 1];
      var line := LineOf(indexed, found, last);
      assert forall id | id in front :: id in order;
      LinesOf(indexed, found, database, front) + if IsOf(database, line) then [line] else []
  }

  /** The merge: one line for each identifier there is, filtered, sorted, cut at the limit. */
  ghost predicate IsMerge(indexed: seq<Backup>, found: seq<Found>, filter: Filter, listed: seq<Listed>) {
    exists order :: IsEnumeration(indexed, found, order)
      && listed == FirstOf(filter.limit, Sort(LineBefore, LinesOf(indexed, found, filter.database, order)))
  }

  // ------------------------------------------------------------------ how it is made

  class Lister {
    const catalog: Catalog
    const destinations: seq<Destination>

    /** Every destination can be listed. */
    const healthy: bool

    constructor (catalog: Catalog, destinations: seq<Destination>, healthy: bool)
      ensures this.catalog == catalog && this.destinations == destinations && this.healthy == healthy
    {
      this.healthy := healthy;
      this.catalog, this.destinations := catalog, destinations;
    }

    /** The destinations to look on: all, or the one asked for if it exists. */
    method Chosen(wanted: string) returns (chosen: Option<seq<Destination>>)
      ensures wanted == "" ==> chosen == Some(destinations)
      ensures wanted != "" ==>
                (chosen.None? <==> forall d | d in destinations :: d.id != wanted)
                && (chosen.Some? ==>
                      |chosen.value| == 1 && chosen.value[0] in destinations && chosen.value[0].id == wanted)
    {
      if wanted == "" {
        return Some(destinations);
      }
      for i := 0 to |destinations|
        invariant forall k | 0 <= k < i :: destinations[k].id != wanted
      {
        if destinations[i].id == wanted {
          return Some([destinations[i]]);
        }
      }
      return None;
    }

    /** One query, one listing for each destination, and the merge of them. */
    method List(filter: Filter) returns (result: Result)
      requires catalog.Valid()
      ensures result.Listing? ==> exists chosen: seq<Destination> ::
                && (filter.destination == "" ==> chosen == destinations)
                && (filter.destination != "" ==>
                    |chosen| == 1 && chosen[0] in destinations && chosen[0].id == filter.destination)
                && IsMerge(Query(catalog.tables, filter), FoundOn(chosen, PrefixOf(filter.database)), filter,
                    result.lines)
      ensures result.NoSuchDestination? <==>
                filter.destination != "" && forall d | d in destinations :: d.id != filter.destination
      ensures healthy && catalog.healthy ==> !result.Unreadable?
    {
      hide Query, FoundIn, FoundOn, Describe, IsMerge;
      var chosen := Chosen(filter.destination);
      if chosen.None? {
        return NoSuchDestination;
      }
      var indexed := catalog.Backups(filter);
      if indexed.None? {
        return Unreadable;
      }
      QueriesNameOnce(catalog.tables, filter);
      var prefix := PrefixOf(filter.database);
      var fault, listed, order := Merge(indexed.value, chosen.value, prefix);
      if fault {
        return Unreadable;
      }
      var lines := Sorted(listed, order, filter, indexed.value, FoundOn(chosen.value, prefix));
      return Listing(lines);
    }

    method Merge(indexed: seq<Backup>, chosen: seq<Destination>, prefix: string)
      returns (fault: bool, listed: map<string, Listed>, order: seq<string>)
      requires NamesOnce(indexed)
      ensures !fault ==> IsMap(indexed, FoundOn(chosen, prefix), listed, order)
      ensures healthy ==> !fault
    {
      hide FoundIn, FoundOn, Describe, IsMap;
      fault, listed, order := false, map[], [];
      NothingIsMapped();
      for i := 0 to |indexed|
        invariant IsMap(indexed[..i], [], listed, order)
      {
        assert indexed[..i + 1] == indexed[..i] + [indexed[i]];
        IndexedOnce(indexed, i);
        IndexOneMore(indexed[..i], indexed[i], listed, order);
        listed := listed[indexed[i].id := Listed(indexed[i], true, false)];
        order := order + [indexed[i].id];
      }
      assert indexed[..|indexed|] == indexed;
      NothingFound(prefix);
      for i := 0 to |chosen|
        invariant IsMap(indexed, FoundOn(chosen[..i], prefix), listed, order)
      {
        fault := *;
        if fault && !healthy {
          return;
        }
        listed, order := MergeDestination(indexed, chosen[..i], chosen[i], prefix, listed, order);
        assert chosen[..i + 1] == chosen[..i] + [chosen[i]];
        fault := false;
      }
      assert chosen[..|chosen|] == chosen;
    }

    method MergeDestination(
      ghost indexed: seq<Backup>, ghost before: seq<Destination>, destination: Destination, prefix: string,
      known: map<string, Listed>, knownOrder: seq<string>)
      returns (listed: map<string, Listed>, order: seq<string>)
      requires IsMap(indexed, FoundOn(before, prefix), known, knownOrder)
      ensures IsMap(indexed, FoundOn(before + [destination], prefix), listed, order)
    {
      hide FoundOn, Describe, IsMap, Identify;
      ghost var earlier := FoundOn(before, prefix);
      listed, order := known, knownOrder;
      var archives := destination.archives(prefix);
      assert earlier + FoundIn(destination, archives[..0]) == earlier;
      for k := 0 to |archives|
        invariant IsMap(indexed, earlier + FoundIn(destination, archives[..k]), listed, order)
      {
        FoundInOneMore(destination, archives, k);
        var identity := Identify(archives[k].path);
        if identity.Some? {
          var f := FoundAt(destination, archives[k], identity.value);
          ghost var sofar := earlier + FoundIn(destination, archives[..k]);
          assert earlier + (FoundIn(destination, archives[..k]) + [f]) == sofar + [f];
          if f.identity.id in listed {
            FindKnown(indexed, sofar, f, listed, order);
            var line := listed[f.identity.id];
            listed := listed[f.identity.id := line.(present := true)];
          } else {
            FindNew(indexed, sofar, f, listed, order);
            listed := listed[f.identity.id := Describe(f)];
            order := order + [f.identity.id];
          }
        }
      }
      assert archives[..|archives|] == archives;
      FoundOnOneMore(before, destination, prefix);
    }

    method Sorted(listed: map<string, Listed>, order: seq<string>, filter: Filter, ghost indexed: seq<Backup>,
        ghost found: seq<Found>)
      returns (lines: seq<Listed>)
      requires IsMap(indexed, found, listed, order)
      ensures IsMerge(indexed, found, filter, lines)
    {
      hide LineOf, IsEnumeration, IsListable, LineBefore;
      MappedIsListable(indexed, found, listed, order);
      lines := [];
      for i := 0 to |order|
        invariant lines == LinesOf(indexed, found, filter.database, order[..i])
      {
        assert order[..i + 1][..i] == order[..i];
        assert order[i] in order;
        var one := listed[order[i]];
        if !(filter.database != "" && one.backup.database != filter.database) {
          lines := lines + [one];
        }
      }
      assert order[..|order|] == order;
      lines := Sort(LineBefore, lines);
      if filter.limit > 0 && |lines| > filter.limit {
        lines := lines[..filter.limit];
      }
    }
  }

  ghost predicate NamesOnce(indexed: seq<Backup>) {
    forall i, j | 0 <= i < j < |indexed| :: indexed[i].id != indexed[j].id
  }

  /** The map and the order of the merge so far: one line for each identifier, as it should be. */
  ghost predicate IsMap(indexed: seq<Backup>, found: seq<Found>, listed: map<string, Listed>, order: seq<string>) {
    && IsEnumeration(indexed, found, order)
    && (forall id :: id in listed <==> IsListable(indexed, found, id))
    && (forall id | id in listed :: listed[id] == LineOf(indexed, found, id))
  }

  lemma NothingIsMapped()
    ensures IsMap([], [], map[], [])
  {
  }

  lemma NothingFound(prefix: string)
    ensures FoundOn([], prefix) == []
  {
  }

  lemma IndexedOnce(indexed: seq<Backup>, i: nat)
    requires NamesOnce(indexed) && i < |indexed|
    ensures !IsIndexed(indexed[..i], indexed[i].id)
  {
  }

  lemma MappedIsListable(indexed: seq<Backup>, found: seq<Found>, listed: map<string, Listed>, order: seq<string>)
    requires IsMap(indexed, found, listed, order)
    ensures forall id | id in order ::
              IsListable(indexed, found, id) && id in listed && listed[id] == LineOf(indexed, found, id)
  {
    hide LineOf, IsListable;
  }

  lemma FoundInOneMore(d: Destination, archives: seq<Archive>, k: nat)
    requires k < |archives|
    ensures match Identify(archives[k].path)
            case Some(identity) => FoundIn(d, archives[..k + 1]) == FoundIn(d, archives[..k])
                + [FoundAt(d, archives[k], identity)]
            case None => FoundIn(d, archives[..k + 1]) == FoundIn(d, archives[..k])
  {
    hide Identify;
    assert archives[..k + 1][..k] == archives[..k];
  }

  lemma FoundOnOneMore(before: seq<Destination>, d: Destination, prefix: string)
    ensures FoundOn(before + [d], prefix) == FoundOn(before, prefix) + FoundIn(d, d.archives(prefix))
  {
    hide FoundIn;
    assert (before + [d])[..|before|] == before;
  }

  lemma IndexOneMore(indexed: seq<Backup>, b: Backup, listed: map<string, Listed>, order: seq<string>)
    requires IsMap(indexed, [], listed, order) && !IsIndexed(indexed, b.id)
    ensures IsMap(indexed + [b], [], listed[b.id := Listed(b, true, false)], order + [b.id])
  {
    hide Describe, IsIndexed, IndexedAs;
    assert !IsListable(indexed, [], b.id) && b.id !in order;
    forall id
      ensures IsIndexed(indexed + [b], id) <==> IsIndexed(indexed, id) || id == b.id
      ensures IsIndexed(indexed + [b], id) ==>
                IndexedAs(indexed + [b], id) == if id == b.id then b else IndexedAs(indexed, id)
    {
      OneMoreIndexed(indexed, b, id);
    }
  }

  lemma OneMoreIndexed(indexed: seq<Backup>, b: Backup, id: string)
    ensures IsIndexed(indexed + [b], id) <==> IsIndexed(indexed, id) || id == b.id
    ensures IsIndexed(indexed + [b], id) ==>
              IndexedAs(indexed + [b], id) == if id == b.id then b else IndexedAs(indexed, id)
  {
    var more := indexed + [b];
    assert more[..|indexed|] == indexed && b in more;
    if IsIndexed(indexed, id) {
      var x :| x in indexed && x.id == id;
      assert x in more;
    }
  }

  lemma OneMoreFound(found: seq<Found>, f: Found, id: string)
    ensures IsFound(found + [f], id) <==> IsFound(found, id) || id == f.identity.id
    ensures IsFound(found, id) ==> FoundAs(found + [f], id) == FoundAs(found, id)
    ensures !IsFound(found, id) && id == f.identity.id ==> FoundAs(found + [f], id) == f
  {
    var more := found + [f];
    assert more[..|found|] == found && f in more;
    if IsFound(found, id) {
      var x :| x in found && x.identity.id == id;
      assert x in more;
    }
  }

  lemma DescribedArePresent(f: Found)
    ensures Describe(f).present && !Describe(f).catalogued
  {
  }

  lemma FindKnown(indexed: seq<Backup>, found: seq<Found>, f: Found, listed: map<string, Listed>, order: seq<string>)
    requires IsMap(indexed, found, listed, order) && f.identity.id in listed
    ensures IsMap(indexed, found + [f], listed[f.identity.id := listed[f.identity.id].(present := true)], order)
  {
    hide IsFound, FoundAs, IsIndexed, IndexedAs, Describe;
    var id := f.identity.id;
    forall x ensures IsFound(found + [f], x) <==> IsFound(found, x) || x == id {
      OneMoreFound(found, f, x);
    }
    forall x | IsListable(indexed, found, x)
      ensures LineOf(indexed, found + [f], x)
           == if x == id then listed[id].(present := true) else LineOf(indexed, found, x)
    {
      OneMoreFound(found, f, x);
      if IsFound(found, x) {
        DescribedArePresent(FoundAs(found, x));
      }
    }
  }

  lemma FindNew(indexed: seq<Backup>, found: seq<Found>, f: Found, listed: map<string, Listed>, order: seq<string>)
    requires IsMap(indexed, found, listed, order) && f.identity.id !in listed
    ensures IsMap(indexed, found + [f], listed[f.identity.id := Describe(f)], order + [f.identity.id])
  {
    hide IsFound, FoundAs, IsIndexed, IndexedAs, Describe;
    var id := f.identity.id;
    forall x ensures IsFound(found + [f], x) <==> IsFound(found, x) || x == id {
      OneMoreFound(found, f, x);
    }
    forall x | IsListable(indexed, found + [f], x)
      ensures LineOf(indexed, found + [f], x) == if x == id then Describe(f) else LineOf(indexed, found, x)
    {
      OneMoreFound(found, f, x);
    }
  }

  // ------------------------------------------------------------------ what a listing shows

  /** Manifests that agree with the names of their archives. */
  predicate NamesAgree(found: seq<Found>) {
    forall f | f in found :: Describe(f).backup.id == f.identity.id
  }

  /** The line of some identifier the index or a destination knows, for the database asked for. */
  predicate IsLine(indexed: seq<Backup>, found: seq<Found>, database: string, line: Listed) {
    && IsOf(database, line)
    && IsListable(indexed, found, line.backup.id)
    && line == LineOf(indexed, found, line.backup.id)
  }

  lemma LineNamesItself(indexed: seq<Backup>, found: seq<Found>, id: string)
    requires NamesAgree(found) && IsListable(indexed, found, id)
    ensures LineOf(indexed, found, id).backup.id == id
  {
    hide Describe;
  }

  lemma {:induction false} AboutLines(indexed: seq<Backup>, found: seq<Found>, database: string, order: seq<string>)
    requires NamesAgree(found) && (forall id | id in order :: IsListable(indexed, found, id))
    requires forall i, j | 0 <= i < j < |order| :: order[i] != order[j]
    ensures forall line :: line in LinesOf(indexed, found, database, order) <==>
              IsLine(indexed, found, database, line) && line.backup.id in order
    ensures forall i, j | 0 <= i < j < |LinesOf(indexed, found, database, order)| ::
              LinesOf(indexed, found, database, order)[i].backup.id
              != LinesOf(indexed, found, database, order)[j].backup.id
  {
    hide LineOf, IsListable, IsOf, NamesAgree;
    if order != [] {
      var front, last := order[..|order| - 1], order[|order| - 1];
      assert order == front + [last] && last in order;
      assert forall id | id in front :: id in order;
      AboutLines(indexed, found, database, front);
      LineNamesItself(indexed, found, last);
      var lines := LinesOf(indexed, found, database, front);
      forall i | 0 <= i < |lines| ensures lines[i].backup.id != last {
        assert lines[i] in lines;
        assert lines[i].backup.id in front;
      }
    }
  }

  lemma LinesAreStrict()
    ensures IsStrict(LineBefore)
  {
    hide CatalogIndex.Before;
    BeforeIsStrict();
    forall x ensures !LineBefore(x, x) {
    }
    forall x, y, z | LineBefore(x, y) && LineBefore(y, z) ensures LineBefore(x, z) {
    }
  }

  lemma DistinctLinesCompare(a: Listed, b: Listed)
    requires a.backup.id != b.backup.id
    ensures LineBefore(a, b) || LineBefore(b, a)
  {
    hide Less;
    LessIsTotal(a.backup.id, b.backup.id);
  }

  /** A listing and the limit cut from it. */
  lemma LimitComesLast(indexed: seq<Backup>, found: seq<Found>, filter: Filter, listed: seq<Listed>)
    returns (whole: seq<Listed>)
    requires IsMerge(indexed, found, filter, listed)
    ensures IsMerge(indexed, found, filter.(limit := 0), whole) && listed == FirstOf(filter.limit, whole)
  {
    hide LinesOf, IsListable, Sort;
    var order :| IsEnumeration(indexed, found, order)
      && listed == FirstOf(filter.limit, Sort(LineBefore, LinesOf(indexed, found, filter.database, order)));
    whole := Sort(LineBefore, LinesOf(indexed, found, filter.database, order));
  }

  /** The merge is exact: strictly most recent first, and a line for each identifier there is. */
  lemma MergeIsExact(indexed: seq<Backup>, found: seq<Found>, filter: Filter, listed: seq<Listed>)
    requires IsMerge(indexed, found, filter, listed) && filter.limit <= 0 && NamesAgree(found)
    ensures IsAscending(LineBefore, listed)
    ensures forall line :: line in listed <==> IsLine(indexed, found, filter.database, line)
  {
    hide LineOf, IsListable, IsOf, NamesAgree, LineBefore, LinesOf, Sort;
    var order :| IsEnumeration(indexed, found, order)
      && listed == FirstOf(filter.limit, Sort(LineBefore, LinesOf(indexed, found, filter.database, order)));
    var lines := LinesOf(indexed, found, filter.database, order);
    AboutLines(indexed, found, filter.database, order);
    LinesAreStrict();
    forall i, j | 0 <= i < j < |lines| ensures LineBefore(lines[i], lines[j]) || LineBefore(lines[j], lines[i]) {
      DistinctLinesCompare(lines[i], lines[j]);
    }
    SortAscends(LineBefore, lines);
    forall line ensures line in listed <==> line in lines {
      InSort(LineBefore, lines, line);
    }
  }

  /** A line is catalogued exactly when the index holds it, and present exactly when a destination does. */
  lemma FlagsAreTrue(indexed: seq<Backup>, found: seq<Found>, database: string, line: Listed)
    requires IsLine(indexed, found, database, line)
    ensures line.catalogued <==> IsIndexed(indexed, line.backup.id)
    ensures line.present <==> IsFound(found, line.backup.id)
    ensures line.catalogued ==> line.backup in indexed
    ensures !line.catalogued ==> line.backup.verified.NotVerified?
  {
  }

  /** Listings of the same lines are the same, whatever order they were merged in. */
  lemma SameLinesSameListing(
    indexed: seq<Backup>, found: seq<Found>, found': seq<Found>, filter: Filter, listed: seq<Listed>,
        listed': seq<Listed>)
    requires IsMerge(indexed, found, filter, listed) && IsMerge(indexed, found', filter, listed')
    requires NamesAgree(found) && NamesAgree(found')
    requires forall line :: IsLine(indexed, found, filter.database, line)
              <==> IsLine(indexed, found', filter.database, line)
    ensures listed == listed'
  {
    hide IsMerge, NamesAgree, IsLine, LineBefore;
    var whole := LimitComesLast(indexed, found, filter, listed);
    var whole' := LimitComesLast(indexed, found', filter, listed');
    MergeIsExact(indexed, found, filter.(limit := 0), whole);
    MergeIsExact(indexed, found', filter.(limit := 0), whole');
    LinesAreStrict();
    AscendingIsUnique(LineBefore, whole, whole');
  }

  // ------------------------------------------------------------------ a listing, the catalogue and the destinations

  /** The catalogue indexes an archive of the database asked for. */
  predicate IsRecorded(t: Tables, database: string, id: string) {
    exists r | r in t.rows :: r.id == id && (database == "" || r.database == database)
  }

  /** Some destination holds a file whose name says it is this archive. */
  ghost predicate IsHeld(destinations: seq<Destination>, prefix: string, id: string) {
    exists i | 0 <= i < |destinations| :: Holds(destinations[i].archives(prefix), id)
  }

  predicate Holds(archives: seq<Archive>, id: string) {
    exists a | a in archives :: IdentifiedAs(a, id)
  }

  predicate IdentifiedAs(a: Archive, id: string) {
    Identify(a.path).Some? && Identify(a.path).value.id == id
  }

  predicate Shows(listed: seq<Listed>, id: string) {
    exists line | line in listed :: line.backup.id == id
  }

  lemma {:induction false} FoundAreIdentified(d: Destination, archives: seq<Archive>, id: string)
    ensures IsFound(FoundIn(d, archives), id) <==> Holds(archives, id)
  {
    hide Identify, IsFound, Holds, FoundIn, IdentifiedAs;
    if archives == [] {
      NothingHeld(d, id);
    } else {
      var front, last := archives[..|archives| - 1], archives[|archives| - 1];
      FoundAreIdentified(d, front, id);
      assert archives == front + [last];
      OneMoreHeld(front, last, id);
      OneMoreIdentified(d, front, last, id);
    }
  }

  lemma NothingHeld(d: Destination, id: string)
    ensures !IsFound(FoundIn(d, []), id) && !Holds([], id)
  {
  }

  lemma OneMoreIdentified(d: Destination, archives: seq<Archive>, a: Archive, id: string)
    ensures IsFound(FoundIn(d, archives + [a]), id) <==> IsFound(FoundIn(d, archives), id) || IdentifiedAs(a, id)
  {
    hide Identify, IsFound, FoundIn;
    var more := archives + [a];
    FoundInOneMore(d, more, |archives|);
    assert more[..|archives|] == archives && more[..|archives| + 1] == more;
    if Identify(a.path).Some? {
      OneMoreFound(FoundIn(d, archives), FoundAt(d, a, Identify(a.path).value), id);
    }
  }

  lemma OneMoreHeld(archives: seq<Archive>, a: Archive, id: string)
    ensures Holds(archives + [a], id) <==> Holds(archives, id) || IdentifiedAs(a, id)
  {
    hide IdentifiedAs;
    var more := archives + [a];
    assert a in more && forall x :: x in more <==> x in archives || x == a;
  }

  lemma OneMoreHolds(destinations: seq<Destination>, d: Destination, prefix: string, id: string)
    ensures IsHeld(destinations + [d], prefix, id)
       <==> IsHeld(destinations, prefix, id) || Holds(d.archives(prefix), id)
  {
    hide Holds;
    var more, n := destinations + [d], |destinations|;
    assert more[n] == d && forall i | 0 <= i < n :: more[i] == destinations[i];
    if IsHeld(destinations, prefix, id) {
      var i :| 0 <= i < n && Holds(destinations[i].archives(prefix), id);
      assert Holds(more[i].archives(prefix), id);
    }
    if Holds(d.archives(prefix), id) {
      assert Holds(more[n].archives(prefix), id);
    }
  }

  lemma EitherFound(a: seq<Found>, b: seq<Found>, id: string)
    ensures IsFound(a + b, id) <==> IsFound(a, id) || IsFound(b, id)
  {
    if IsFound(a, id) {
      assert FoundAs(a, id) in a + b;
    }
    if IsFound(b, id) {
      assert FoundAs(b, id) in a + b;
    }
  }

  lemma {:induction false} FoundAreHeld(destinations: seq<Destination>, prefix: string, id: string)
    ensures IsFound(FoundOn(destinations, prefix), id) <==> IsHeld(destinations, prefix, id)
  {
    if destinations == [] {
      NothingFound(prefix);
    } else {
      hide Holds, FoundIn, IsFound, FoundOn, IsHeld;
      var front, last := destinations[..|destinations| - 1], destinations[|destinations| - 1];
      FoundAreHeld(front, prefix, id);
      assert destinations == front + [last];
      OneMoreHolds(front, last, prefix, id);
      FoundOnOneMore(front, last, prefix);
      FoundAreIdentified(last, last.archives(prefix), id);
      EitherFound(FoundOn(front, prefix), FoundIn(last, last.archives(prefix)), id);
    }
  }

  lemma UniqueRows(t: Tables)
    ensures KeysAreUnique(t) ==> IdsAreUnique(t.rows)
  {
  }

  lemma IndexedAreRecorded(t: Tables, filter: Filter, id: string)
    requires KeysAreUnique(t) && StampsAreWritten(t.rows) && filter.destination == "" && filter.limit <= 0
    ensures IsIndexed(Query(t, filter), id) <==> IsRecorded(t, filter.database, id)
  {
    hide Query, ParseStamp, LocationsOf, CopiesInOrder, CatalogIndex.Before, KeysAreUnique, StampsAreWritten;
    UniqueRows(t);
    QueriesListEverything(t, filter);
    if IsRecorded(t, filter.database, id) {
      var r :| r in t.rows && r.id == id && (filter.database == "" || r.database == filter.database);
      assert EntryOf(t, r) in Query(t, filter);
    }
  }

  /** The database a file says it is of: its manifest, or else its name. */
  ghost function SaysDatabase(f: Found): string {
    match f.manifest
    case Some(m) => m.databaseId
    case None => f.identity.database
  }

  /** A file nobody indexed: where it is, what its manifest or its name says, and never that it was checked. */
  lemma StrangersAreDescribed(d: Destination, a: Archive, identity: Identity)
    ensures var line := Describe(FoundAt(d, a, identity));
      && !line.catalogued && line.present
      && line.backup.verified.NotVerified? && line.backup.verifiedAt == 0
      && line.backup.locations == [M.Location(d.id, a.path, a.bytes, a.at)]
      && match d.manifest(a.path)
         case None =>
           && line.backup.id == identity.id && line.backup.database == identity.database
           && line.backup.startedAt == identity.at && line.backup.storedBytes == a.bytes
         case Some(m) =>
           && line.backup.id == m.backupId && line.backup.database == m.databaseId
           && line.backup.startedAt == M.BackupOf(m).startedAt && line.backup.finishedAt == M.BackupOf(m).finishedAt
           && line.backup.rawBytes == m.sizeRaw && line.backup.sha256Raw == m.sha256Raw
           && line.backup.sha256Stored == m.sha256Stored
           && line.backup.storedBytes == if m.sizeStored == 0 then a.bytes else m.sizeStored
  {
    hide M.Parse;
  }

  lemma DescribedSayDatabase(f: Found)
    ensures Describe(f).backup.database == SaysDatabase(f)
  {
    hide M.Parse;
  }

  /**
   * A listing without destination and limit: strictly most recent first, so each archive once; a
   * line for all that is recorded and all that is held; catalogued means recorded, present means held.
   */
  lemma ListingIsTheUnion(t: Tables, destinations: seq<Destination>, filter: Filter, listed: seq<Listed>)
    requires KeysAreUnique(t) && StampsAreWritten(t.rows) && filter.destination == "" && filter.limit <= 0
    requires NamesAgree(FoundOn(destinations, PrefixOf(filter.database)))
    requires IsMerge(Query(t, filter), FoundOn(destinations, PrefixOf(filter.database)), filter, listed)
    ensures IsAscending(LineBefore, listed)
    ensures forall line | line in listed ::
              && (line.catalogued <==> IsRecorded(t, filter.database, line.backup.id))
              && (line.present <==> IsHeld(destinations, PrefixOf(filter.database), line.backup.id))
              && (line.catalogued || line.present)
    ensures forall id | IsRecorded(t, filter.database, id) :: Shows(listed, id)
    ensures filter.database == "" ==>
              forall id | IsHeld(destinations, PrefixOf(""), id) :: Shows(listed, id)
    ensures forall line | line in listed :: filter.database == "" || line.backup.database == filter.database
    ensures var found := FoundOn(destinations, PrefixOf(filter.database));
      forall id | IsFound(found, id) && SaysDatabase(FoundAs(found, id)) == filter.database :: Shows(listed, id)
  {
    hide Query, FoundOn, IsMerge, NamesAgree, IsFound, IsIndexed, IsHeld, IsRecorded, Describe, FoundAs, LineBefore;
    hide KeysAreUnique, StampsAreWritten;
    var indexed, found := Query(t, filter), FoundOn(destinations, PrefixOf(filter.database));
    MergeIsExact(indexed, found, filter, listed);
    AboutQuery(t, filter);
    forall id
      ensures IsIndexed(indexed, id) <==> IsRecorded(t, filter.database, id)
      ensures IsFound(found, id) <==> IsHeld(destinations, PrefixOf(filter.database), id)
    {
      IndexedAreRecorded(t, filter, id);
      FoundAreHeld(destinations, PrefixOf(filter.database), id);
    }
    forall line | line in listed
      ensures line.catalogued <==> IsIndexed(indexed, line.backup.id)
      ensures line.present <==> IsFound(found, line.backup.id)
    {
      FlagsAreTrue(indexed, found, filter.database, line);
    }
    forall id | IsListable(indexed, found, id)
                && (filter.database == "" || IsIndexed(indexed, id)
                    || SaysDatabase(FoundAs(found, id)) == filter.database)
      ensures Shows(listed, id)
    {
      if !IsIndexed(indexed, id) {
        DescribedSayDatabase(FoundAs(found, id));
      }
      LineNamesItself(indexed, found, id);
      assert LineOf(indexed, found, id) in listed;
    }
  }

  // ------------------------------------------------------------------ a database whose name is cleaned

  predicate HoldsPath(archives: seq<Archive>, path: string) {
    exists a | a in archives :: a.path == path
  }

  /** A destination on a local disk: under a prefix it lists the whole files that are there. */
  ghost predicate ListsDisk(d: Destination, root: seq<string>, disk: F.Disk) {
    forall prefix, path :: HoldsPath(d.archives(prefix), path) <==> F.IsShown(root, disk, prefix, path)
  }

  /** The one file of a disk that says it is an archive. */
  ghost predicate IsOnlyFile(disk: F.Disk, path: string, id: string) {
    && path in disk && !F.IsPartial(path)
    && forall q | q in disk :: Names(q, id) <==> q == path
  }

  predicate Names(path: string, id: string) {
    Identify(path).Some? && Identify(path).value.id == id
  }

  lemma HeldIffReached(d: Destination, root: seq<string>, disk: F.Disk, database: string, at: Instant, id: string,
      extension: string)
    requires ListsDisk(d, root, disk) && '/' !in extension
    requires IsOnlyFile(disk, ArchivePath(database, at, id, extension), id)
    ensures IsHeld([d], PrefixOf(database), id) <==> IsReached(root, database)
  {
    hide Identify, ArchivePath, IsReached, IsUnder, PrefixOf, F.IsPartial;
    var path, prefix := ArchivePath(database, at, id, extension), PrefixOf(database);
    var archives := d.archives(prefix);
    assert [d][0] == d;
    ArchivesAreFoundIff(root, database, at, id, extension);
    assert HoldsPath(archives, path) <==> F.IsShown(root, disk, prefix, path);
    if Holds(archives, id) {
      var a :| a in archives && IdentifiedAs(a, id);
      assert HoldsPath(archives, a.path);
      assert Names(a.path, id);
    }
    if HoldsPath(archives, path) {
      var a :| a in archives && a.path == path;
      assert Names(path, id);
      assert IdentifiedAs(a, id);
    }
  }

  /**
   * A listing of one database shows its archive as present exactly when the identifier, read as a
   * path, reaches the directory its archives are written in: not when cleaning it changed the name.
   */
  lemma PresentIffReached(
    t: Tables, d: Destination, root: seq<string>, disk: F.Disk, filter: Filter, listed: seq<Listed>,
    at: Instant, id: string, extension: string)
    requires KeysAreUnique(t) && StampsAreWritten(t.rows) && filter.destination == "" && filter.limit <= 0
    requires ListsDisk(d, root, disk) && '/' !in extension
    requires IsOnlyFile(disk, ArchivePath(filter.database, at, id, extension), id)
    requires IsRecorded(t, filter.database, id)
    requires NamesAgree(FoundOn([d], PrefixOf(filter.database)))
    requires IsMerge(Query(t, filter), FoundOn([d], PrefixOf(filter.database)), filter, listed)
    ensures Shows(listed, id)
    ensures forall line | line in listed && line.backup.id == id :: line.present <==> IsReached(root, filter.database)
  {
    hide KeysAreUnique, StampsAreWritten, ListsDisk, IsOnlyFile, IsRecorded, NamesAgree, FoundOn, IsMerge, Query;
    hide IsReached, IsHeld, LineBefore, ArchivePath;
    ListingIsTheUnion(t, [d], filter, listed);
    HeldIffReached(d, root, disk, filter.database, at, id, extension);
  }

  // ------------------------------------------------------------------ the order of a destination's listing

  lemma {:induction false} AboutFoundIn(d: Destination, archives: seq<Archive>, f: Found)
    ensures f in FoundIn(d, archives) <==>
              exists a | a in archives :: Identify(a.path).Some? && f == FoundAt(d, a, Identify(a.path).value)
  {
    hide Identify, FoundAt;
    if archives != [] {
      var front, last := archives[..|archives| - 1], archives[|archives| - 1];
      assert archives == front + [last];
      AboutFoundIn(d, front, f);
    }
  }

  /** One file for each identifier. */
  predicate OneFileEach(archives: seq<Archive>) {
    forall a, b | a in archives && b in archives && Identify(a.path).Some? && Identify(b.path).Some? ::
      Identify(a.path).value.id == Identify(b.path).value.id ==> a == b
  }

  lemma SameArchivesSameFound(d: Destination, archives: seq<Archive>, archives': seq<Archive>)
    requires multiset(archives) == multiset(archives')
    ensures forall f :: f in FoundIn(d, archives) <==> f in FoundIn(d, archives')
  {
    hide Identify, FoundAt;
    forall f ensures f in FoundIn(d, archives) <==> f in FoundIn(d, archives') {
      assert forall a :: a in archives <==> a in multiset(archives);
      assert forall a :: a in archives' <==> a in multiset(archives');
      AboutFoundIn(d, archives, f);
      AboutFoundIn(d, archives', f);
    }
  }

  lemma FoundOnce(d: Destination, archives: seq<Archive>, f: Found, g: Found)
    requires OneFileEach(archives) && f in FoundIn(d, archives) && g in FoundIn(d, archives)
    requires f.identity.id == g.identity.id
    ensures f == g
  {
    hide Identify;
    AboutFoundIn(d, archives, f);
    AboutFoundIn(d, archives, g);
  }

  /** With one file for each identifier, the order in which a destination lists them is not seen. */
  lemma TheOrderOfADestinationIsNotSeen(
    indexed: seq<Backup>, d: Destination, archives: seq<Archive>, archives': seq<Archive>, filter: Filter,
    listed: seq<Listed>, listed': seq<Listed>)
    requires multiset(archives) == multiset(archives') && OneFileEach(archives)
    requires NamesAgree(FoundIn(d, archives))
    requires IsMerge(indexed, FoundIn(d, archives), filter, listed)
    requires IsMerge(indexed, FoundIn(d, archives'), filter, listed')
    ensures listed == listed'
  {
    hide IsMerge, FoundIn, OneFileEach, Describe;
    var found, found' := FoundIn(d, archives), FoundIn(d, archives');
    SameArchivesSameFound(d, archives, archives');
    forall line
      ensures IsLine(indexed, found, filter.database, line) <==> IsLine(indexed, found', filter.database, line)
    {
      var id := line.backup.id;
      if IsFound(found, id) {
        assert FoundAs(found, id) in found && FoundAs(found', id) in found;
        FoundOnce(d, archives, FoundAs(found, id), FoundAs(found', id));
      }
    }
    SameLinesSameListing(indexed, found, found', filter, listed, listed');
  }

  // ------------------------------------------------------------------ a limit below the merge

  /** What a limit on the index drops, and a destination then shows as if it had never been indexed. */
  predicate IsForgotten(indexed: seq<Backup>, found: seq<Found>, filter: Filter, line: Listed) {
    && !IsIndexed(FirstOf(filter.limit, indexed), line.backup.id)
    && IsIndexed(indexed, line.backup.id)
    && IsFound(found, line.backup.id)
    && line == Describe(FoundAs(found, line.backup.id))
    && IsOf(filter.database, line)
  }

  lemma FirstIsIndexed(indexed: seq<Backup>, limit: int, id: string)
    requires NamesOnce(indexed)
    ensures IsIndexed(FirstOf(limit, indexed), id) ==>
              IsIndexed(indexed, id) && IndexedAs(FirstOf(limit, indexed), id) == IndexedAs(indexed, id)
  {
    hide IndexedAs;
    var first := FirstOf(limit, indexed);
    if IsIndexed(first, id) {
      var b :| b in first && b.id == id;
      assert b in indexed;
      assert IndexedAs(first, id) in indexed;
    }
  }

  /** Cutting the index changes only the lines of what it drops. */
  lemma OnlyTheDroppedChange(indexed: seq<Backup>, found: seq<Found>, filter: Filter, line: Listed)
    requires NamesOnce(indexed) && NamesAgree(found)
    ensures var first := FirstOf(filter.limit, indexed);
      IsIndexed(first, line.backup.id) || !IsIndexed(indexed, line.backup.id) ==>
        (IsLine(first, found, filter.database, line) <==> IsLine(indexed, found, filter.database, line))
    ensures var first := FirstOf(filter.limit, indexed);
      !IsIndexed(first, line.backup.id) && IsIndexed(indexed, line.backup.id) ==>
        (IsLine(first, found, filter.database, line) <==> IsForgotten(indexed, found, filter, line))
  {
    hide IndexedAs, FoundAs, Describe, FirstOf;
    FirstIsIndexed(indexed, filter.limit, line.backup.id);
  }

  /** Nothing the cut index forgot comes back before the last line asked for. */
  ghost predicate ForgottenComeLater(indexed: seq<Backup>, found: seq<Found>, filter: Filter, whole: seq<Listed>) {
    forall line | IsForgotten(indexed, found, filter, line) ::
      filter.limit <= |whole| && !LineBefore(line, whole[filter.limit - 1])
  }

  /** A whole listing of an index that a limit would cut. */
  ghost predicate IsWhole(indexed: seq<Backup>, found: seq<Found>, filter: Filter, whole: seq<Listed>) {
    && 0 < filter.limit < |indexed| && IsAscending(CatalogIndex.Before, indexed) && NamesOnce(indexed)
    && (forall b | b in indexed :: filter.database == "" || b.database == filter.database)
    && IsAscending(LineBefore, whole)
    && (forall line :: line in whole <==> IsLine(indexed, found, filter.database, line))
  }

  lemma IndexedLine(indexed: seq<Backup>, found: seq<Found>, i: nat)
    requires NamesOnce(indexed) && i < |indexed|
    ensures IsIndexed(indexed, indexed[i].id)
    ensures LineOf(indexed, found, indexed[i].id) == Listed(indexed[i], true, IsFound(found, indexed[i].id))
  {
    hide IsFound, FoundAs, Describe;
    assert indexed[i] in indexed;
  }

  function TopLines(indexed: seq<Backup>, found: seq<Found>, k: nat): seq<Listed>
    requires k <= |indexed|
  {
    seq(k, i requires 0 <= i < k => Listed(indexed[i], true, IsFound(found, indexed[i].id)))
  }

  /** The last line asked for is not after the last entry the cut index keeps. */
  lemma TheTopIsListed(indexed: seq<Backup>, found: seq<Found>, filter: Filter, whole: seq<Listed>)
    requires IsWhole(indexed, found, filter, whole)
    ensures filter.limit <= |whole|
    ensures !LineBefore(TopLines(indexed, found, filter.limit)[filter.limit - 1], whole[filter.limit - 1])
  {
    hide IsFound, LineOf, CatalogIndex.Before;
    var k := filter.limit;
    var top := TopLines(indexed, found, k);
    forall line | line in top ensures line in whole {
      var i :| 0 <= i < k && top[i] == line;
      IndexedLine(indexed, found, i);
      assert indexed[i] in indexed;
    }
    LinesAreStrict();
    var i := PlaceOf(LineBefore, top, whole, k - 1);
    InOrder(LineBefore, whole, k - 1, i);
  }

  lemma FirstKeeps(indexed: seq<Backup>, limit: int, i: nat)
    requires i < |indexed|
    ensures i < limit ==> IsIndexed(FirstOf(limit, indexed), indexed[i].id)
  {
    if i < limit {
      assert FirstOf(limit, indexed)[i] in FirstOf(limit, indexed);
    }
  }

  /** What the cut index drops comes after the last line asked for. */
  lemma DroppedComeLater(indexed: seq<Backup>, found: seq<Found>, filter: Filter, whole: seq<Listed>, line: Listed)
    requires IsWhole(indexed, found, filter, whole)
    requires IsIndexed(indexed, line.backup.id) && !IsIndexed(FirstOf(filter.limit, indexed), line.backup.id)
    requires line.backup.startedAt == IndexedAs(indexed, line.backup.id).startedAt
    ensures filter.limit <= |whole| && LineBefore(whole[filter.limit - 1], line)
  {
    hide IsFound, IsLine, LineOf, Less;
    var k := filter.limit;
    TheTopIsListed(indexed, found, filter, whole);
    var b := IndexedAs(indexed, line.backup.id);
    var i :| 0 <= i < |indexed| && indexed[i] == b;
    FirstKeeps(indexed, k, i);
    var last := TopLines(indexed, found, k)[k - 1];
    assert CatalogIndex.Before(indexed[k - 1], indexed[i]);
    assert LineBefore(last, line);
    NotAfterThenBefore(last, whole[k - 1], line);
  }

  lemma NotAfterThenBefore(last: Listed, x: Listed, line: Listed)
    requires LineBefore(last, line) && !LineBefore(last, x)
    ensures LineBefore(x, line)
  {
    hide Less;
    LessIsTotal(last.backup.id, x.backup.id);
    LessIsTotal(x.backup.id, line.backup.id);
    if Less(line.backup.id, last.backup.id) && Less(last.backup.id, x.backup.id) {
      LessIsTransitive(line.backup.id, last.backup.id, x.backup.id);
    }
  }

  lemma WholeOf(indexed: seq<Backup>, found: seq<Found>, filter: Filter, whole: seq<Listed>)
    requires IsMerge(indexed, found, filter.(limit := 0), whole)
    ensures IsMerge(indexed, found, filter, FirstOf(filter.limit, whole))
  {
    hide LinesOf, Sort;
  }

  /**
   * The catalogue is asked for no more than the listing will show. That keeps the meaning of the
   * listing exactly when no archive the catalogue was not asked for says it came before its end.
   */
  lemma PushdownIsExact(
    indexed: seq<Backup>, found: seq<Found>, filter: Filter, whole: seq<Listed>, part: seq<Listed>)
    requires IsWhole(indexed, found, filter, whole) && NamesAgree(found)
    requires IsMerge(FirstOf(filter.limit, indexed), found, filter.(limit := 0), part)
    ensures FirstOf(filter.limit, part) == FirstOf(filter.limit, whole)
       <==> ForgottenComeLater(indexed, found, filter, whole)
  {
    hide IsMerge, IsForgotten, IsLine, NamesAgree, LineBefore, ForgottenComeLater, CatalogIndex.Before, IndexedAs;
    MergeIsExact(FirstOf(filter.limit, indexed), found, filter.(limit := 0), part);
    TheTopIsListed(indexed, found, filter, whole);
    if ForgottenComeLater(indexed, found, filter, whole) {
      LaterMeansSame(indexed, found, filter, whole, part);
    } else {
      EarlierMeansOther(indexed, found, filter, whole, part);
    }
  }

  /** A line of the whole listing for something dropped comes after its top. */
  lemma DroppedLinesComeLater(indexed: seq<Backup>, found: seq<Found>, filter: Filter, whole: seq<Listed>, line: Listed)
    requires IsWhole(indexed, found, filter, whole) && line in whole
    requires IsIndexed(indexed, line.backup.id) && !IsIndexed(FirstOf(filter.limit, indexed), line.backup.id)
    ensures filter.limit <= |whole| && LineBefore(whole[filter.limit - 1], line)
  {
    hide LineBefore, FirstOf;
    DroppedComeLater(indexed, found, filter, whole, line);
  }

  lemma LaterMeansSame(
    indexed: seq<Backup>, found: seq<Found>, filter: Filter, whole: seq<Listed>, part: seq<Listed>)
    requires IsWhole(indexed, found, filter, whole) && NamesAgree(found)
    requires IsAscending(LineBefore, part)
    requires forall line :: line in part <==> IsLine(FirstOf(filter.limit, indexed), found, filter.database, line)
    requires ForgottenComeLater(indexed, found, filter, whole)
    ensures FirstOf(filter.limit, part) == FirstOf(filter.limit, whole)
  {
    hide IsForgotten, IsLine, NamesAgree, LineBefore, CatalogIndex.Before, IndexedAs, IsIndexed, FirstOf;
    var k := filter.limit;
    TheTopIsListed(indexed, found, filter, whole);
    LinesAreStrict();
    var pivot := whole[k - 1];
    var top := whole[..k];
    forall x | !LineBefore(pivot, x) ensures x in whole <==> x in part {
      OnlyTheDroppedChange(indexed, found, filter, x);
      if IsIndexed(indexed, x.backup.id) && !IsIndexed(FirstOf(k, indexed), x.backup.id) {
        if x in whole {
          DroppedLinesComeLater(indexed, found, filter, whole, x);
        } else if x in part {
          assert pivot.backup.id != x.backup.id by {
            if pivot.backup.id == x.backup.id {
              DroppedLinesComeLater(indexed, found, filter, whole, pivot);
            }
          }
          DistinctLinesCompare(x, pivot);
        }
      }
    }
    forall x | x in top ensures x in whole && x in part {
      var i :| 0 <= i < k && whole[i] == x;
      InOrder(LineBefore, whole, i, k - 1);
    }
    TopsAgree(LineBefore, whole, part, top);
    FirstOfIs(k, whole);
    FirstOfIs(k, part);
  }

  lemma FirstOfIs<T>(limit: nat, s: seq<T>)
    requires 0 < limit <= |s|
    ensures FirstOf(limit, s) == s[..limit]
  {
  }

  lemma EarlierMeansOther(
    indexed: seq<Backup>, found: seq<Found>, filter: Filter, whole: seq<Listed>, part: seq<Listed>)
    requires IsWhole(indexed, found, filter, whole) && NamesAgree(found)
    requires IsAscending(LineBefore, part)
    requires forall line :: line in part <==> IsLine(FirstOf(filter.limit, indexed), found, filter.database, line)
    requires !ForgottenComeLater(indexed, found, filter, whole)
    ensures FirstOf(filter.limit, part) != FirstOf(filter.limit, whole)
  {
    hide IsLine, NamesAgree, LineBefore, CatalogIndex.Before, IndexedAs, IsIndexed, FirstOf, Describe, FoundAs;
    var k := filter.limit;
    TheTopIsListed(indexed, found, filter, whole);
    LinesAreStrict();
    var line :| IsForgotten(indexed, found, filter, line) && LineBefore(line, whole[k - 1]);
    OnlyTheDroppedChange(indexed, found, filter, line);
    assert line !in whole by {
      DescribedArePresent(FoundAs(found, line.backup.id));
      if line in whole {
        FlagsAreTrue(indexed, found, filter.database, line);
      }
    }
    var j :| 0 <= j < |part| && part[j] == line;
    FirstOfIs(k, whole);
    if |FirstOf(k, part)| == k {
      FirstOfIsLong(k, part);
      SameTopSameMembers(LineBefore, part, whole, k, j);
    }
  }

  lemma SameTopSameMembers<T(!new)>(less: (T, T) -> bool, a: seq<T>, b: seq<T>, k: nat, j: nat)
    requires IsStrict(less) && IsAscending(less, a) && 0 < k <= |a| && k <= |b| && j < |a|
    requires less(a[j], b[k - 1]) && a[j] !in b
    ensures a[..k] != b[..k]
  {
    InOrder(less, a, k - 1, j);
    var p, q := a[..k], b[..k];
    assert p[k - 1] == a[k - 1] && q[k - 1] == b[k - 1];
    assert forall x | x in q :: x in b;
    if j < k {
      assert p[j] in p;
    }
  }

  lemma FirstOfIsLong<T>(limit: nat, s: seq<T>)
    requires 0 < limit && |FirstOf(limit, s)| == limit
    ensures limit <= |s| && FirstOf(limit, s) == s[..limit]
  {
  }

  /** Archives the index holds too say they started when it says they did. */
  ghost predicate TimesAgree(indexed: seq<Backup>, found: seq<Found>) {
    forall f | f in found && IsIndexed(indexed, f.identity.id) ::
      Describe(f).backup.startedAt == IndexedAs(indexed, f.identity.id).startedAt
  }

  lemma ForgottenCannotComeFirst(indexed: seq<Backup>, found: seq<Found>, filter: Filter, whole: seq<Listed>)
    requires IsWhole(indexed, found, filter, whole) && TimesAgree(indexed, found)
    ensures ForgottenComeLater(indexed, found, filter, whole)
  {
    hide FirstOf, Describe, LineBefore, IsLine, CatalogIndex.Before, IndexedAs;
    LinesAreStrict();
    forall line | IsForgotten(indexed, found, filter, line)
      ensures filter.limit <= |whole| && !LineBefore(line, whole[filter.limit - 1])
    {
      assert FoundAs(found, line.backup.id) in found;
      DroppedComeLater(indexed, found, filter, whole, line);
    }
  }

  /** A query keeps to its database, and is most recent first. */
  lemma AboutQuery(t: Tables, filter: Filter)
    requires KeysAreUnique(t) && StampsAreWritten(t.rows) && filter.destination == "" && filter.limit <= 0
    ensures IsAscending(CatalogIndex.Before, Query(t, filter)) && NamesOnce(Query(t, filter))
    ensures forall b | b in Query(t, filter) :: filter.database == "" || b.database == filter.database
  {
    hide Query, ParseStamp, LocationsOf, CopiesInOrder;
    QueriesListEverything(t, filter);
    QueriesNameOnce(t, filter);
  }

  /**
   * Without a destination, and where archives agree with the catalogue on their names and times, a
   * limited listing is the first part of the whole one: its lines, their order, their flags.
   */
  lemma LimitedListingsAreFirstParts(t: Tables, found: seq<Found>, filter: Filter, listed: seq<Listed>,
      whole: seq<Listed>)
    requires KeysAreUnique(t) && StampsAreWritten(t.rows) && filter.destination == ""
    requires NamesAgree(found) && TimesAgree(Query(t, filter.(limit := 0)), found)
    requires IsMerge(Query(t, filter), found, filter, listed)
    requires IsMerge(Query(t, filter.(limit := 0)), found, filter.(limit := 0), whole)
    ensures listed == FirstOf(filter.limit, whole)
  {
    hide Query, IsMerge, NamesAgree, TimesAgree, IsLine, KeysAreUnique, StampsAreWritten;
    var indexed := Query(t, filter.(limit := 0));
    LimitsAreFirstParts(t, filter);
    if 0 < filter.limit < |indexed| {
      AboutQuery(t, filter.(limit := 0));
      MergeIsExact(indexed, found, filter.(limit := 0), whole);
      var part := LimitComesLast(FirstOf(filter.limit, indexed), found, filter, listed);
      ForgottenCannotComeFirst(indexed, found, filter, whole);
      PushdownIsExact(indexed, found, filter, whole, part);
    } else {
      WholeOf(indexed, found, filter, whole);
      SameLinesSameListing(indexed, found, found, filter, listed, FirstOf(filter.limit, whole));
    }
  }

  /** What the archive of a job says of itself, by its name or by its manifest, is what the catalogue says. */
  lemma OwnArchivesAgree(
    b: Backup, extension: string, engine: string, run: M.Run, zone: M.Zone, f: Found)
    requires IsSegment(b.database) && IsSegment(b.id) && IsPlain(b.database, b.id) && IsExtension(extension)
    requires FourDigitYear(SecondOf(b.startedAt)) && M.IsWholeMinute(b.startedAt, zone)
    requires f.archive.path == ArchivePath(b.database, b.startedAt, b.id, extension)
    requires Some(f.identity) == Identify(f.archive.path)
    requires f.manifest == None || f.manifest == Some(M.ManifestOf(b, engine, run, zone))
    ensures f.identity.id == b.id && Describe(f).backup.id == b.id && Describe(f).backup.database == b.database
    ensures Describe(f).backup.startedAt == Parsed(RowOf(b)).startedAt
  {
    hide Identify, ArchivePath, M.Format, M.Parse, IsSegment, FourDigitYear, Stamp, ParseStamp;
    ArchiveNameRoundTrip(b.database, b.startedAt, b.id, extension);
    M.TimestampIsExact(b.startedAt, zone);
    StampsReadBack(b.startedAt);
  }

  // ------------------------------------------------------------------ any limit, with a destination or without

  /** An entry a cut index no longer has. */
  predicate IsDropped(indexed: seq<Backup>, kept: nat, id: string)
    requires kept <= |indexed|
  {
    IsIndexed(indexed, id) && !IsIndexed(indexed[..kept], id)
  }

  /** What a destination shows, as if it had never been indexed, of an entry the cut index dropped. */
  predicate IsOrphan(indexed: seq<Backup>, kept: nat, found: seq<Found>, database: string, line: Listed)
    requires kept <= |indexed|
  {
    && IsDropped(indexed, kept, line.backup.id) && IsFound(found, line.backup.id)
    && line == Describe(FoundAs(found, line.backup.id)) && IsOf(database, line)
  }

  /** No dropped entry is among the lines asked for, and no orphan comes before the last of them. */
  ghost predicate DroppedAreBeyond(
    indexed: seq<Backup>, kept: nat, found: seq<Found>, database: string, limit: int, whole: seq<Listed>)
    requires kept <= |indexed|
  {
    && (forall line | line in FirstOf(limit, whole) :: !IsDropped(indexed, kept, line.backup.id))
    && (forall line | IsOrphan(indexed, kept, found, database, line) ::
          0 < limit <= |whole| && !LineBefore(line, whole[limit - 1]))
  }

  /** The lines of an index and of what is found, strictly in order. */
  ghost predicate AreLines(indexed: seq<Backup>, found: seq<Found>, database: string, lines: seq<Listed>) {
    IsAscending(LineBefore, lines) && forall line :: line in lines <==> IsLine(indexed, found, database, line)
  }

  lemma KeptIsIndexed(indexed: seq<Backup>, kept: nat, id: string)
    requires NamesOnce(indexed) && kept <= |indexed|
    ensures IsIndexed(indexed[..kept], id) ==>
              IsIndexed(indexed, id) && IndexedAs(indexed[..kept], id) == IndexedAs(indexed, id)
  {
    hide IndexedAs;
    var first := indexed[..kept];
    if IsIndexed(first, id) {
      var b :| b in first && b.id == id;
      assert b in indexed;
      assert IndexedAs(first, id) in indexed;
    }
  }

  /** Cutting the index changes the lines of what it drops, into orphans, and no others. */
  lemma CutLines(indexed: seq<Backup>, kept: nat, found: seq<Found>, database: string, line: Listed)
    requires NamesOnce(indexed) && kept <= |indexed|
    ensures !IsDropped(indexed, kept, line.backup.id) ==>
              (IsLine(indexed[..kept], found, database, line) <==> IsLine(indexed, found, database, line))
    ensures IsDropped(indexed, kept, line.backup.id) ==>
              (IsLine(indexed[..kept], found, database, line) <==> IsOrphan(indexed, kept, found, database, line))
  {
    hide IndexedAs, FoundAs, Describe;
    KeptIsIndexed(indexed, kept, line.backup.id);
  }

  lemma DroppedAreLines(indexed: seq<Backup>, kept: nat, found: seq<Found>, database: string, id: string)
    returns (line: Listed)
    requires NamesOnce(indexed) && kept <= |indexed| && IsDropped(indexed, kept, id)
    requires forall b | b in indexed :: database == "" || b.database == database
    ensures line.backup.id == id && IsLine(indexed, found, database, line)
  {
    line := LineOf(indexed, found, id);
  }

  lemma BeyondMeansSame(
    indexed: seq<Backup>, kept: nat, found: seq<Found>, database: string, limit: int, whole: seq<Listed>,
        part: seq<Listed>)
    requires NamesOnce(indexed) && kept <= |indexed|
    requires forall b | b in indexed :: database == "" || b.database == database
    requires AreLines(indexed, found, database, whole) && AreLines(indexed[..kept], found, database, part)
    requires DroppedAreBeyond(indexed, kept, found, database, limit, whole)
    ensures FirstOf(limit, part) == FirstOf(limit, whole)
  {
    hide IsLine, LineBefore, IsDropped, IsOrphan;
    LinesAreStrict();
    if 0 < limit <= |whole| {
      FirstOfIs(limit, whole);
      var top, pivot := whole[..limit], whole[limit - 1];
      assert top[limit - 1] == pivot && pivot in top;
      forall x | !LineBefore(pivot, x) ensures x in whole <==> x in part {
        CutLines(indexed, kept, found, database, x);
        if IsDropped(indexed, kept, x.backup.id) {
          DistinctLinesCompare(x, pivot);
          NotInTop(whole, limit, x);
        }
      }
      forall x | x in top ensures x in whole && x in part {
        CutLines(indexed, kept, found, database, x);
      }
      TopsAgree(LineBefore, whole, part, top);
      FirstOfIs(limit, part);
    } else {
      forall x ensures x in whole <==> x in part {
        CutLines(indexed, kept, found, database, x);
        if IsDropped(indexed, kept, x.backup.id) {
          var line := DroppedAreLines(indexed, kept, found, database, x.backup.id);
          assert line in FirstOf(limit, whole);
        }
      }
      AscendingIsUnique(LineBefore, whole, part);
    }
  }

  /** What is in an ascending listing and not after the last of its top is in its top. */
  lemma NotInTop(whole: seq<Listed>, limit: nat, x: Listed)
    requires IsAscending(LineBefore, whole) && 0 < limit <= |whole| && x !in whole[..limit]
    ensures x in whole ==> LineBefore(whole[limit - 1], x)
  {
    hide LineBefore;
    if x in whole {
      var i :| 0 <= i < |whole| && whole[i] == x;
      InTheFirst(whole, limit, i);
    }
  }

  lemma InTheFirst<T>(s: seq<T>, limit: nat, i: nat)
    requires limit <= |s| && i < |s|
    ensures i < limit ==> s[i] in s[..limit]
  {
    if i < limit {
      assert s[..limit][i] == s[i];
    }
  }

  lemma SameFirstSameWhole<T>(limit: int, a: seq<T>, b: seq<T>)
    requires FirstOf(limit, a) == FirstOf(limit, b)
    ensures 0 < limit <= |b| || a == b
  {
  }

  lemma SameMeansBeyond(
    indexed: seq<Backup>, kept: nat, found: seq<Found>, database: string, limit: int, whole: seq<Listed>,
        part: seq<Listed>)
    requires NamesOnce(indexed) && kept <= |indexed|
    requires AreLines(indexed, found, database, whole) && AreLines(indexed[..kept], found, database, part)
    requires FirstOf(limit, part) == FirstOf(limit, whole)
    ensures DroppedAreBeyond(indexed, kept, found, database, limit, whole)
  {
    hide IsLine, LineBefore, IsDropped, Describe, FoundAs;
    LinesAreStrict();
    forall line | line in FirstOf(limit, whole) ensures !IsDropped(indexed, kept, line.backup.id) {
      assert line in whole && line in part;
      CutLines(indexed, kept, found, database, line);
      NoOrphanIsALine(indexed, kept, found, database, line);
    }
    forall line | IsOrphan(indexed, kept, found, database, line)
      ensures 0 < limit <= |whole| && !LineBefore(line, whole[limit - 1])
    {
      CutLines(indexed, kept, found, database, line);
      NoOrphanIsALine(indexed, kept, found, database, line);
      var j :| 0 <= j < |part| && part[j] == line;
      OnlyInOneMeansBeyond(part, whole, limit, j);
    }
  }

  lemma NoOrphanIsALine(indexed: seq<Backup>, kept: nat, found: seq<Found>, database: string, line: Listed)
    requires kept <= |indexed|
    ensures IsOrphan(indexed, kept, found, database, line) ==> !IsLine(indexed, found, database, line)
  {
    hide FoundAs, IndexedAs;
    if IsFound(found, line.backup.id) {
      DescribedArePresent(FoundAs(found, line.backup.id));
    }
  }

  lemma OnlyInOneMeansBeyond(part: seq<Listed>, whole: seq<Listed>, limit: int, j: nat)
    requires IsStrict(LineBefore) && IsAscending(LineBefore, part) && j < |part| && part[j] !in whole
    requires FirstOf(limit, part) == FirstOf(limit, whole)
    ensures 0 < limit <= |whole| && !LineBefore(part[j], whole[limit - 1])
  {
    hide LineBefore;
    assert part[j] in part;
    SameFirstSameWhole(limit, part, whole);
    FirstOfIs(limit, whole);
    FirstOfIsLong(limit, part);
    if LineBefore(part[j], whole[limit - 1]) {
      SameTopSameMembers(LineBefore, part, whole, limit, j);
    }
  }

  /**
   * Whatever the filter: a limited listing is the first part of the whole one exactly when nothing
   * the catalogue left out of its answer is among the lines asked for, and no archive of such an
   * entry says, on a destination, that it came before the last of them.
   */
  lemma LimitedListingsAreExact(t: Tables, found: seq<Found>, filter: Filter, listed: seq<Listed>, whole: seq<Listed>)
    requires KeysAreUnique(t) && NamesAgree(found)
    requires IsMerge(Query(t, filter), found, filter, listed)
    requires IsMerge(Query(t, filter.(limit := 0)), found, filter.(limit := 0), whole)
    ensures |Query(t, filter)| <= |Query(t, filter.(limit := 0))|
    ensures listed == FirstOf(filter.limit, whole) <==>
              DroppedAreBeyond(Query(t, filter.(limit := 0)), |Query(t, filter)|, found, filter.database,
                  filter.limit, whole)
  {
    hide Query, IsMerge, NamesAgree, IsLine, LineBefore, DroppedAreBeyond, KeysAreUnique, FirstOf, IdsAreUnique;
    var unlimited := filter.(limit := 0);
    var indexed, kept := Query(t, unlimited), |Query(t, filter)|;
    LimitedQueriesAreParts(t, filter);
    assert Query(t, filter) == indexed[..kept];
    QueriesNameOnce(t, unlimited);
    UniqueRows(t);
    QueriesKeepTheDatabase(t, unlimited);
    var part := LimitComesLast(indexed[..kept], found, filter, listed);
    MergeIsExact(indexed, found, unlimited, whole);
    MergeIsExact(indexed[..kept], found, unlimited, part);
    if FirstOf(filter.limit, part) == FirstOf(filter.limit, whole) {
      SameMeansBeyond(indexed, kept, found, filter.database, filter.limit, whole, part);
    }
    if DroppedAreBeyond(indexed, kept, found, filter.database, filter.limit, whole) {
      BeyondMeansSame(indexed, kept, found, filter.database, filter.limit, whole, part);
    }
  }
}
