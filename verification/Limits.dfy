/**
 * The limit map of `internal/pcq/load.go`: joined database rows folded into caps per tunnel address,
 * keeping the smallest positive setting of each kind.
 */
module Limits {
  import opened Wrappers
  import Ipv4
  import Rates
  import Text

  datatype PeerLimit = PeerLimit(download: int, upload: int, burstDownload: int, burstUpload: int)

  type LimitMap = map<string, PeerLimit>

  // ---------- Tables and the join ----------

  datatype User = User(wireguard: bool, enabled: bool, allowedIPs: string)

  /** The classifier column; every text but the first two names counts as dual. */
  datatype Classifier = DstDownload | SrcUpload | Dual

  datatype Preset = Preset(dl: Option<int>, ul: Option<int>, bd: Option<int>, bu: Option<int>,
                           classifier: Classifier, disabled: bool)

  datatype Database = Database(users: map<string, User>, presets: map<string, Preset>,
                               members: set<(string, string)>)

  /** One row of the query: a member's address column and its group's preset. */
  datatype Row = Row(group: string, allowedIPs: string, preset: Preset)

  /** The rows for enabled WireGuard users in groups with an enabled preset. */
  function JoinRows(db: Database): set<Row>
  {
    set m | m in db.members && m.0 in db.presets && m.1 in db.users
            && db.users[m.1].wireguard && db.users[m.1].enabled && !db.presets[m.0].disabled
          :: Row(m.0, db.users[m.1].allowedIPs, db.presets[m.0])
  }

  // ---------- Row arithmetic ----------

  function Nz64(v: Option<int>): int
  {
    if v.None? || v.value <= 0 then 0 else v.value
  }

  function ClassifyRow(p: Preset): PeerLimit
  {
    match p.classifier
    case DstDownload => PeerLimit(Nz64(p.dl), 0, Nz64(p.bd), 0)
    case SrcUpload => PeerLimit(0, Nz64(p.ul), 0, Nz64(p.bu))
    case Dual => PeerLimit(Nz64(p.dl), Nz64(p.ul), Nz64(p.bd), Nz64(p.bu))
  }

  function MergeMin(cur: int, add: int): int
  {
    if add <= 0 then cur
    else if cur <= 0 || add < cur then add
    else cur
  }

  const NO_LIMIT := PeerLimit(0, 0, 0, 0)

  function Merge(a: PeerLimit, b: PeerLimit): PeerLimit
  {
    PeerLimit(MergeMin(a.download, b.download), MergeMin(a.upload, b.upload),
              MergeMin(a.burstDownload, b.burstDownload), MergeMin(a.burstUpload, b.burstUpload))
  }

  /** Reading a Go map: an absent key gives the zero value. */
  function Lookup(m: LimitMap, ip: string): PeerLimit
  {
    if ip in m then m[ip] else NO_LIMIT
  }

  /** The tunnel address a row speaks about; empty when the row is skipped. */
  function Target(r: Row): string
  {
    var caps := ClassifyRow(r.preset);
    if caps.download <= 0 && caps.upload <= 0 then "" else Ipv4.TunnelIPv4(r.allowedIPs)
  }

  /** What a row contributes; nothing when `ip` is empty. */
  datatype Entry = Entry(ip: string, caps: PeerLimit)

  function EntryOf(r: Row): Entry
  {
    Entry(Target(r), ClassifyRow(r.preset))
  }

  function AddEntry(m: LimitMap, e: Entry): LimitMap
  {
    if e.ip == "" then m else m[e.ip := Merge(Lookup(m, e.ip), e.caps)]
  }

  function Fold(rows: seq<Row>): LimitMap
  {
    if rows == [] then map[] else AddEntry(Fold(rows[..|rows| - 1]), EntryOf(rows[|rows| - 1]))
  }

  function InGroup(rows: seq<Row>, group: string): seq<Row>
  {
    if rows == [] then []
    else InGroup(rows[..|rows| - 1], group)
         + if rows[|rows| - 1].group == group then [rows[|rows| - 1]] else []
  }

  function Elements(rows: seq<Row>): set<Row>
  {
    set r | r in rows
  }

  function Entries(rows: set<Row>): set<Entry>
  {
    set r | r in rows :: EntryOf(r)
  }

  // ---------- The loaders ----------

  /** One pass of the loop shared by both loaders. */
  method MergeRow(out: LimitMap, r: Row) returns (next: LimitMap)
    ensures next == AddEntry(out, EntryOf(r))
  {
    var ip := Ipv4.TunnelIPv4(r.allowedIPs);
    if ip == "" {
      return out;
    }
    var caps := ClassifyRow(r.preset);
    if caps.download <= 0 && caps.upload <= 0 {
      return out;
    }
    var pl := if ip in out then out[ip] else NO_LIMIT;
    next := out[ip := PeerLimit(MergeMin(pl.download, caps.download), MergeMin(pl.upload, caps.upload),
                                MergeMin(pl.burstDownload, caps.burstDownload),
                                MergeMin(pl.burstUpload, caps.burstUpload))];
  }

  /** The loop; `rows` is the query's result in whatever order it came. */
  method FoldRows(rows: seq<Row>) returns (out: LimitMap)
    ensures out == Fold(rows)
  {
    out := map[];
    for i := 0 to |rows|
      invariant out == Fold(rows[..i])
    {
      assert rows[..i + 1][..i] == rows[..i];
      out := MergeRow(out, rows[i]);
    }
    assert rows[..|rows|] == rows;
  }

  method LoadPeerLimits(db: Database, rows: seq<Row>) returns (out: LimitMap)
    requires Elements(rows) == JoinRows(db)
    ensures Denotes(out, Entries(JoinRows(db))) && Reflects(out, db, None)
  {
    out := FoldRows(rows);
    FoldDenotes(rows);
    DenotesReflects(out, db, None);
  }

  /** The preview of one group; `rows` is the group's own query result. */
  method LoadPeerLimitsForGroup(db: Database, group: string, rows: seq<Row>) returns (out: LimitMap)
    requires Elements(rows) == RowsOf(db, Text.Trim(group))
    ensures Denotes(out, Entries(if Text.Trim(group) == "" then {} else RowsOf(db, Text.Trim(group))))
    ensures if Text.Trim(group) == "" then out == map[] else Reflects(out, db, Some(Text.Trim(group)))
  {
    if Text.Trim(group) == "" {
      return map[];
    }
    out := FoldRows(rows);
    FoldDenotes(rows);
    DenotesReflects(out, db, Some(Text.Trim(group)));
  }

  // ---------- What the map means ----------

  datatype Kind = Download | Upload | BurstDownload | BurstUpload

  function Get(pl: PeerLimit, k: Kind): int
  {
    match k
    case Download => pl.download
    case Upload => pl.upload
    case BurstDownload => pl.burstDownload
    case BurstUpload => pl.burstUpload
  }

  /** Entry `e` sets a positive cap of kind `k` on address `ip`. */
  predicate Sets(e: Entry, ip: string, k: Kind)
  {
    e.ip == ip && Get(e.caps, k) > 0
  }

  /** `v` is the smallest positive cap of kind `k` that the entries set on `ip`, or 0 when there is none. */
  ghost predicate IsLeastCap(v: int, es: set<Entry>, ip: string, k: Kind)
  {
    (forall e :: e in es && Sets(e, ip, k) ==> 0 < v <= Get(e.caps, k))
    && (v == 0 || exists e :: e in es && Sets(e, ip, k) && v == Get(e.caps, k))
  }

  ghost predicate HasEntry(es: set<Entry>, ip: string)
  {
    ip != "" && exists e :: e in es && e.ip == ip
  }

  /** The map lists exactly the addresses with an effective entry, each with its least caps. */
  ghost predicate Denotes(m: LimitMap, es: set<Entry>)
  {
    (forall ip :: ip in m <==> HasEntry(es, ip))
    && forall ip, k :: ip != "" ==> IsLeastCap(Get(Lookup(m, ip), k), es, ip, k)
  }

  // ---------- The same in terms of the tables ----------

  /** A membership of an enabled WireGuard user in a group, the given one if any, whose preset is enabled. */
  predicate InForce(db: Database, only: Option<string>, m: (string, string))
  {
    m in db.members && (only.Some? ==> m.0 == only.value)
    && m.1 in db.users && db.users[m.1].wireguard && db.users[m.1].enabled
    && m.0 in db.presets && !db.presets[m.0].disabled
  }

  predicate Positive(v: Option<int>)
  {
    v.Some? && v.value > 0
  }

  function Column(p: Preset, k: Kind): Option<int>
  {
    match k
    case Download => p.dl
    case Upload => p.ul
    case BurstDownload => p.bd
    case BurstUpload => p.bu
  }

  /** A preset sets a cap when the column is positive and its classifier does not leave that direction out. */
  predicate SetsCap(p: Preset, k: Kind)
  {
    Positive(Column(p, k))
    && p.classifier != (if k == Download || k == BurstDownload then SrcUpload else DstDownload)
  }

  /** A membership in force that limits address `ip` at all. */
  predicate Restricts(db: Database, only: Option<string>, m: (string, string), ip: string)
  {
    InForce(db, only, m) && ip != "" && Ipv4.TunnelIPv4(db.users[m.1].allowedIPs) == ip
    && (SetsCap(db.presets[m.0], Download) || SetsCap(db.presets[m.0], Upload))
  }

  /** `v` is the least of the caps of kind `k` that memberships set on `ip`, or 0 when none does. */
  ghost predicate IsLeastSetting(v: int, db: Database, only: Option<string>, ip: string, k: Kind)
  {
    (forall m :: Restricts(db, only, m, ip) && SetsCap(db.presets[m.0], k) ==>
                   0 < v <= Column(db.presets[m.0], k).value)
    && (v == 0 || exists m :: Restricts(db, only, m, ip) && SetsCap(db.presets[m.0], k)
                              && v == Column(db.presets[m.0], k).value)
  }

  /** The map lists exactly the addresses that a membership limits, each with the least settings of its presets. */
  ghost predicate Reflects(out: LimitMap, db: Database, only: Option<string>)
  {
    (forall ip :: ip in out <==> exists m :: Restricts(db, only, m, ip))
    && forall ip, k :: ip in out ==> IsLeastSetting(Get(out[ip], k), db, only, ip, k)
  }

  function RowsFor(db: Database, only: Option<string>): set<Row>
  {
    if only.Some? then RowsOf(db, only.value) else JoinRows(db)
  }

  function EntryFor(db: Database, m: (string, string)): Entry
    requires InForce(db, None, m)
  {
    EntryOf(Row(m.0, db.users[m.1].allowedIPs, db.presets[m.0]))
  }

  lemma CapsOfPreset(p: Preset, k: Kind)
    ensures Get(ClassifyRow(p), k) == if SetsCap(p, k) then Column(p, k).value else 0
  {
  }

  lemma EntryRestricts(db: Database, only: Option<string>, m: (string, string), ip: string)
    requires InForce(db, only, m) && ip != ""
    ensures EntryFor(db, m) in Entries(RowsFor(db, only))
    ensures EntryFor(db, m).ip == ip <==> Restricts(db, only, m, ip)
  {
    var p := db.presets[m.0];
    CapsOfPreset(p, Download);
    CapsOfPreset(p, Upload);
    assert Row(m.0, db.users[m.1].allowedIPs, p) in RowsFor(db, only);
  }

  lemma EntryComesFrom(db: Database, only: Option<string>, e: Entry) returns (m: (string, string))
    requires e in Entries(RowsFor(db, only))
    ensures InForce(db, only, m) && EntryFor(db, m) == e
  {
    var r :| r in RowsFor(db, only) && EntryOf(r) == e;
    m :| m in db.members && m.0 in db.presets && m.1 in db.users && db.users[m.1].wireguard
         && db.users[m.1].enabled && !db.presets[m.0].disabled
         && r == Row(m.0, db.users[m.1].allowedIPs, db.presets[m.0]);
  }

  lemma ListedReflects(db: Database, only: Option<string>, ip: string)
    ensures HasEntry(Entries(RowsFor(db, only)), ip) <==> exists m :: Restricts(db, only, m, ip)
  {
    if HasEntry(Entries(RowsFor(db, only)), ip) {
      var e :| e in Entries(RowsFor(db, only)) && e.ip == ip;
      var m := EntryComesFrom(db, only, e);
      EntryRestricts(db, only, m, ip);
    }
    forall m | Restricts(db, only, m, ip) ensures HasEntry(Entries(RowsFor(db, only)), ip) {
      EntryRestricts(db, only, m, ip);
    }
  }

  lemma LeastReflects(v: int, db: Database, only: Option<string>, ip: string, k: Kind)
    requires ip != "" && IsLeastCap(v, Entries(RowsFor(db, only)), ip, k)
    ensures IsLeastSetting(v, db, only, ip, k)
  {
    forall m | Restricts(db, only, m, ip) && SetsCap(db.presets[m.0], k)
      ensures 0 < v <= Column(db.presets[m.0], k).value
    {
      EntryRestricts(db, only, m, ip);
      CapsOfPreset(db.presets[m.0], k);
      assert Sets(EntryFor(db, m), ip, k);
    }
    if v != 0 {
      var e :| e in Entries(RowsFor(db, only)) && Sets(e, ip, k) && v == Get(e.caps, k);
      var m := EntryComesFrom(db, only, e);
      EntryRestricts(db, only, m, ip);
      CapsOfPreset(db.presets[m.0], k);
      assert Restricts(db, only, m, ip) && SetsCap(db.presets[m.0], k) && v == Column(db.presets[m.0], k).value;
    }
  }

  /** The meaning of a map of rows, over the columns of the tables themselves. */
  lemma DenotesReflects(out: LimitMap, db: Database, only: Option<string>)
    requires Denotes(out, Entries(RowsFor(db, only)))
    ensures Reflects(out, db, only)
  {
    forall ip ensures ip in out <==> exists m :: Restricts(db, only, m, ip) {
      ListedReflects(db, only, ip);
    }
    forall ip, k: Kind | ip in out ensures IsLeastSetting(Get(out[ip], k), db, only, ip, k) {
      assert HasEntry(Entries(RowsFor(db, only)), ip);
      LeastReflects(Get(Lookup(out, ip), k), db, only, ip, k);
    }
  }

  lemma SameKey(m: LimitMap, n: LimitMap, db: Database, only: Option<string>, ip: string)
    requires Reflects(m, db, only) && Reflects(n, db, only)
    ensures ip in m <==> ip in n
  {
    assert ip in m <==> exists x :: Restricts(db, only, x, ip);
    assert ip in n <==> exists x :: Restricts(db, only, x, ip);
  }

  lemma SameCaps(x: PeerLimit, y: PeerLimit)
    requires forall k :: Get(x, k) == Get(y, k)
    ensures x == y
  {
    assert Get(x, Download) == Get(y, Download) && Get(x, Upload) == Get(y, Upload);
    assert Get(x, BurstDownload) == Get(y, BurstDownload) && Get(x, BurstUpload) == Get(y, BurstUpload);
  }

  lemma LeastSettingUnique(v: int, w: int, db: Database, only: Option<string>, ip: string, k: Kind)
    requires IsLeastSetting(v, db, only, ip, k) && IsLeastSetting(w, db, only, ip, k)
    ensures v == w
  {
  }

  lemma SameMaps(m: LimitMap, n: LimitMap)
    requires (forall ip :: ip in m <==> ip in n) && forall ip :: ip in m && ip in n ==> m[ip] == n[ip]
    ensures m == n
  {
  }

  /** The tables leave one map. */
  lemma ReflectsUnique(m: LimitMap, n: LimitMap, db: Database, only: Option<string>)
    requires Reflects(m, db, only) && Reflects(n, db, only)
    ensures m == n
  {
    forall ip ensures (ip in m <==> ip in n) && (ip in m && ip in n ==> m[ip] == n[ip]) {
      SameKey(m, n, db, only, ip);
      if ip in m && ip in n {
        forall k: Kind ensures Get(m[ip], k) == Get(n[ip], k) {
          LeastSettingUnique(Get(m[ip], k), Get(n[ip], k), db, only, ip, k);
        }
        SameCaps(m[ip], n[ip]);
      }
    }
    SameMaps(m, n);
  }

  lemma LeastCapUnique(v: int, w: int, es: set<Entry>, ip: string, k: Kind)
    requires IsLeastCap(v, es, ip, k) && IsLeastCap(w, es, ip, k)
    ensures v == w
  {
  }

  lemma LookupUnique(m: LimitMap, n: LimitMap, es: set<Entry>, ip: string)
    requires Denotes(m, es) && Denotes(n, es) && ip != ""
    ensures Lookup(m, ip) == Lookup(n, ip)
  {
    var x, y := Lookup(m, ip), Lookup(n, ip);
    LeastCapUnique(Get(x, Download), Get(y, Download), es, ip, Download);
    LeastCapUnique(Get(x, Upload), Get(y, Upload), es, ip, Upload);
    LeastCapUnique(Get(x, BurstDownload), Get(y, BurstDownload), es, ip, BurstDownload);
    LeastCapUnique(Get(x, BurstUpload), Get(y, BurstUpload), es, ip, BurstUpload);
  }

  /** The entries determine the map. */
  lemma DenotesUnique(m: LimitMap, n: LimitMap, es: set<Entry>)
    requires Denotes(m, es) && Denotes(n, es)
    ensures m == n
  {
    assert !HasEntry(es, "");
    forall ip ensures (ip in m <==> ip in n) && (ip in m ==> m[ip] == n[ip]) {
      assert ip in m <==> HasEntry(es, ip);
      assert ip in n <==> HasEntry(es, ip);
      if ip in m {
        LookupUnique(m, n, es, ip);
      }
    }
  }

  /** Minimum-merging two values joins the entry sets they are least over. */
  lemma MergeLeast(v: int, w: int, a: set<Entry>, b: set<Entry>, ip: string, k: Kind)
    requires IsLeastCap(v, a, ip, k) && IsLeastCap(w, b, ip, k)
    ensures IsLeastCap(MergeMin(v, w), a + b, ip, k)
  {
  }

  /** The pointwise minimum-merge of two maps. */
  function MergeMaps(m: LimitMap, n: LimitMap): LimitMap
  {
    map ip | ip in m.Keys + n.Keys :: Merge(Lookup(m, ip), Lookup(n, ip))
  }

  lemma HasEntryUnion(a: set<Entry>, b: set<Entry>, ip: string)
    ensures HasEntry(a + b, ip) <==> HasEntry(a, ip) || HasEntry(b, ip)
  {
  }

  lemma MergeMapsDenotes(m: LimitMap, n: LimitMap, a: set<Entry>, b: set<Entry>)
    requires Denotes(m, a) && Denotes(n, b)
    ensures Denotes(MergeMaps(m, n), a + b)
  {
    var mn := MergeMaps(m, n);
    forall ip ensures ip in mn <==> HasEntry(a + b, ip) {
      HasEntryUnion(a, b, ip);
    }
    forall ip, k: Kind | ip != "" ensures IsLeastCap(Get(Lookup(mn, ip), k), a + b, ip, k) {
      MergeLeast(Get(Lookup(m, ip), k), Get(Lookup(n, ip), k), a, b, ip, k);
      assert Get(Lookup(mn, ip), k) == MergeMin(Get(Lookup(m, ip), k), Get(Lookup(n, ip), k));
    }
  }

  /** Caps that a row can contribute are never negative. */
  predicate NotNegative(pl: PeerLimit)
  {
    pl.download >= 0 && pl.upload >= 0 && pl.burstDownload >= 0 && pl.burstUpload >= 0
  }

  lemma OneEntryDenotes(e: Entry)
    requires NotNegative(e.caps)
    ensures Denotes(if e.ip == "" then map[] else map[e.ip := e.caps], {e})
  {
    var one: LimitMap := if e.ip == "" then map[] else map[e.ip := e.caps];
    assert e in {e};
    forall ip, k: Kind | ip != "" ensures IsLeastCap(Get(Lookup(one, ip), k), {e}, ip, k) {
    }
  }

  lemma AddEntryDenotes(m: LimitMap, es: set<Entry>, e: Entry)
    requires Denotes(m, es) && NotNegative(e.caps)
    ensures Denotes(AddEntry(m, e), es + {e})
  {
    var one: LimitMap := if e.ip == "" then map[] else map[e.ip := e.caps];
    OneEntryDenotes(e);
    MergeMapsDenotes(m, one, es, {e});
    forall ip | ip in m ensures Merge(m[ip], NO_LIMIT) == m[ip] {
    }
    assert AddEntry(m, e) == MergeMaps(m, one);
  }

  lemma {:induction false} FoldDenotes(rows: seq<Row>)
    ensures Denotes(Fold(rows), Entries(Elements(rows)))
  {
    if rows == [] {
      assert Denotes(map[], {});
    } else {
      var front, last := rows[..|rows| - 1], rows[|rows| - 1];
      FoldDenotes(front);
      AddEntryDenotes(Fold(front), Entries(Elements(front)), EntryOf(last));
      assert Elements(rows) == Elements(front) + {last};
      EntriesUnion(Elements(front), {last});
      assert Entries({last}) == {EntryOf(last)};
    }
  }

  lemma EntriesUnion(a: set<Row>, b: set<Row>)
    ensures Entries(a + b) == Entries(a) + Entries(b)
  {
  }

  /** The map does not depend on the order, or the repetition, of the rows. */
  lemma OrderDoesNotMatter(rows: seq<Row>, other: seq<Row>)
    requires Elements(rows) == Elements(other)
    ensures Fold(rows) == Fold(other)
  {
    FoldDenotes(rows);
    FoldDenotes(other);
    DenotesUnique(Fold(rows), Fold(other), Entries(Elements(rows)));
  }

  // ---------- Groups ----------

  function OfGroups(rows: seq<Row>, groups: seq<string>): set<Row>
  {
    set r | r in rows && r.group in groups
  }

  function MergePreviews(rows: seq<Row>, groups: seq<string>): LimitMap
  {
    if groups == [] then map[]
    else MergeMaps(MergePreviews(rows, groups[1..]), Fold(InGroup(rows, groups[0])))
  }

  lemma {:induction false} InGroupElements(rows: seq<Row>, group: string)
    ensures forall r :: r in InGroup(rows, group) <==> r in rows && r.group == group
  {
    if rows != [] {
      InGroupElements(rows[..|rows| - 1], group);
      assert rows == rows[..|rows| - 1] + [rows[|rows| - 1]];
    }
  }

  lemma {:induction false} MergePreviewsDenotes(rows: seq<Row>, groups: seq<string>)
    ensures Denotes(MergePreviews(rows, groups), Entries(OfGroups(rows, groups)))
    decreases |groups|
  {
    if groups == [] {
      assert OfGroups(rows, groups) == {};
      assert Denotes(map[], {});
    } else {
      var g, rest := groups[0], groups[1..];
      MergePreviewsDenotes(rows, rest);
      FoldDenotes(InGroup(rows, g));
      var a, b := OfGroups(rows, rest), Elements(InGroup(rows, g));
      MergeMapsDenotes(MergePreviews(rows, rest), Fold(InGroup(rows, g)), Entries(a), Entries(b));
      EntriesUnion(a, b);
      InGroupElements(rows, g);
      assert OfGroups(rows, groups) == a + b;
    }
  }

  /** The map over all groups is the minimum-merge of the maps that each group's preview shows. */
  lemma MapIsMergeOfPreviews(rows: seq<Row>, groups: seq<string>)
    requires forall r :: r in rows ==> r.group in groups
    ensures Fold(rows) == MergePreviews(rows, groups)
  {
    MergePreviewsDenotes(rows, groups);
    FoldDenotes(rows);
    assert OfGroups(rows, groups) == Elements(rows);
    DenotesUnique(Fold(rows), MergePreviews(rows, groups), Entries(Elements(rows)));
  }

  // ---------- More rows only tighten ----------

  lemma MoreEntriesTighten(m: LimitMap, n: LimitMap, es: set<Entry>, more: set<Entry>, ip: string, k: Kind)
    requires Denotes(m, es) && Denotes(n, more) && es <= more && ip in m
    ensures ip in n
    ensures Get(m[ip], k) > 0 ==> 0 < Get(n[ip], k) <= Get(m[ip], k)
  {
    assert HasEntry(es, ip);
    assert HasEntry(more, ip);
    assert IsLeastCap(Get(Lookup(m, ip), k), es, ip, k);
    assert IsLeastCap(Get(Lookup(n, ip), k), more, ip, k);
  }

  lemma JoinRowsGrow(db: Database, member: (string, string))
    ensures JoinRows(db) <= JoinRows(db.(members := db.members + {member}))
  {
  }

  /** Adding a member to a group neither removes nor raises any cap, nor the rate compiled from it. */
  lemma JoiningAGroupTightens(db: Database, member: (string, string), m: LimitMap, n: LimitMap, ip: string, k: Kind)
    requires Denotes(m, Entries(JoinRows(db)))
    requires Denotes(n, Entries(JoinRows(db.(members := db.members + {member}))))
    requires ip in m
    ensures ip in n
    ensures Get(m[ip], k) > 0 ==>
              && 0 < Get(n[ip], k) <= Get(m[ip], k)
              && Rates.BitsPerSecond(Get(n[ip], k)) <= Rates.BitsPerSecond(Get(m[ip], k))
  {
    var more := db.(members := db.members + {member});
    JoinRowsGrow(db, member);
    MoreEntriesTighten(m, n, Entries(JoinRows(db)), Entries(JoinRows(more)), ip, k);
    if Get(m[ip], k) > 0 {
      Rates.RateIsMonotone(Get(n[ip], k), Get(m[ip], k));
    }
  }

  // ---------- Deleting a group ----------

  /** The tables after a group is deleted, its preset and memberships with it. */
  function DeleteGroup(db: Database, group: string): Database
  {
    db.(presets := db.presets - {group}, members := set m | m in db.members && m.0 != group)
  }

  function RowsOf(db: Database, group: string): set<Row>
  {
    set r | r in JoinRows(db) && r.group == group
  }

  function RowsOfOthers(db: Database, group: string): set<Row>
  {
    set r | r in JoinRows(db) && r.group != group
  }

  /** Another entry for the same address has a cap of kind `k` that is no larger. */
  predicate Matched(es: set<Entry>, e: Entry, k: Kind)
  {
    exists f :: f in es && f.ip == e.ip && 0 < Get(f.caps, k) <= Get(e.caps, k)
  }

  /** Leaving `e` out changes nothing: its address stays listed, and each of its caps is matched. */
  ghost predicate Dominated(es: set<Entry>, e: Entry)
  {
    e.ip == "" || (HasEntry(es, e.ip) && forall k :: Get(e.caps, k) > 0 ==> Matched(es, e, k))
  }

  lemma DominatedLeast(v: int, es: set<Entry>, dropped: set<Entry>, ip: string, k: Kind)
    requires IsLeastCap(v, es, ip, k) && ip != ""
    requires forall e :: e in dropped ==> Dominated(es, e)
    ensures IsLeastCap(v, es + dropped, ip, k)
  {
    forall e | e in es + dropped && Sets(e, ip, k) ensures 0 < v <= Get(e.caps, k) {
      if e !in es {
        assert Dominated(es, e) && Matched(es, e, k);
        var f :| f in es && f.ip == e.ip && 0 < Get(f.caps, k) <= Get(e.caps, k);
        assert Sets(f, ip, k);
      }
    }
  }

  lemma DominatedDenotes(n: LimitMap, es: set<Entry>, dropped: set<Entry>)
    requires Denotes(n, es) && forall e :: e in dropped ==> Dominated(es, e)
    ensures Denotes(n, es + dropped)
  {
    forall ip ensures ip in n <==> HasEntry(es + dropped, ip) {
      HasEntryUnion(es, dropped, ip);
      if HasEntry(dropped, ip) {
        var e :| e in dropped && e.ip == ip;
        assert Dominated(es, e);
      }
    }
    forall ip, k: Kind | ip != "" ensures IsLeastCap(Get(Lookup(n, ip), k), es + dropped, ip, k) {
      DominatedLeast(Get(Lookup(n, ip), k), es, dropped, ip, k);
    }
  }

  lemma SameMapDominates(m: LimitMap, es: set<Entry>, dropped: set<Entry>, e: Entry)
    requires Denotes(m, es + dropped) && Denotes(m, es) && e in dropped
    ensures Dominated(es, e)
  {
    if e.ip != "" {
      assert HasEntry(es + dropped, e.ip);
      assert HasEntry(es, e.ip);
      forall k: Kind | Get(e.caps, k) > 0 ensures Matched(es, e, k) {
        var v := Get(Lookup(m, e.ip), k);
        assert IsLeastCap(v, es + dropped, e.ip, k) && Sets(e, e.ip, k);
        assert IsLeastCap(v, es, e.ip, k);
      }
    }
  }

  /** Leaving entries out keeps the map exactly when each of them is dominated by those that stay. */
  lemma DroppingEntries(m: LimitMap, n: LimitMap, es: set<Entry>, dropped: set<Entry>)
    requires Denotes(m, es + dropped) && Denotes(n, es)
    ensures m == n <==> forall e :: e in dropped ==> Dominated(es, e)
  {
    if m == n {
      forall e | e in dropped ensures Dominated(es, e) {
        SameMapDominates(m, es, dropped, e);
      }
    }
    if forall e :: e in dropped ==> Dominated(es, e) {
      DominatedDenotes(n, es, dropped);
      DenotesUnique(m, n, es + dropped);
    }
  }

  lemma RowsAfterDelete(db: Database, group: string)
    ensures JoinRows(DeleteGroup(db, group)) == RowsOfOthers(db, group)
    ensures JoinRows(db) == RowsOfOthers(db, group) + RowsOf(db, group)
  {
    forall r ensures r in JoinRows(DeleteGroup(db, group)) <==> r in RowsOfOthers(db, group) {
      if r in RowsOfOthers(db, group) {
        var m :| m in db.members && m.0 in db.presets && m.1 in db.users && db.users[m.1].wireguard
                 && db.users[m.1].enabled && !db.presets[m.0].disabled
                 && r == Row(m.0, db.users[m.1].allowedIPs, db.presets[m.0]);
        assert m in DeleteGroup(db, group).members;
      }
    }
  }

  /** Every effective setting of the group is matched by one of another group, in the tables as they stand. */
  ghost predicate Redundant(db: Database, group: string)
  {
    forall e :: e in Entries(RowsOf(db, group)) ==> Dominated(Entries(RowsOfOthers(db, group)), e)
  }

  /** Deleting a group leaves the limit map as it is exactly when the group is redundant. */
  lemma DeletingAGroupKeepsTheMap(db: Database, group: string, m: LimitMap, n: LimitMap)
    requires Denotes(m, Entries(JoinRows(db))) && Denotes(n, Entries(JoinRows(DeleteGroup(db, group))))
    ensures m == n <==> Redundant(db, group)
  {
    RowsAfterDelete(db, group);
    EntriesUnion(RowsOfOthers(db, group), RowsOf(db, group));
    DroppingEntries(m, n, Entries(RowsOfOthers(db, group)), Entries(RowsOf(db, group)));
  }
}
