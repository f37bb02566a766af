/** The task-definition rule of the relevance classifier: task-definition ARNs
    (`...:task-definition/<family>:<revision>`) grouped by family, each family
    ranked by revision, newest first, and everything below the two newest
    marked stale. Active use of a revision plays no part in this rule. */
module TaskFamilies {
  import opened Wrappers
  import opened Text
  import opened Sorting

  /** `family, revision = arn.split('/')[-1].split(':')`: the family when the
      unpacking succeeds, that is when the last segment holds exactly one
      colon; `None` where Python raises. */
  function SplitFamily(arn: string): Option<string> {
    var parts := Pieces(arn);
    if |parts| == 2 then Some(parts[0]) else None
  }

  /** `arn.split('/')[-1].split(':')`. */
  function Pieces(arn: string): seq<string> {
    SplitOn(LastSegment(arn, "/"), ":")
  }

  /** The unpacking followed by `int(revision)`; `None` where Python raises and
      no item is filed for the ARN. */
  function FamilyRevision(arn: string): (r: Option<(string, nat)>)
    ensures r.Some? ==> SplitFamily(arn) == Some(r.value.0)
  {
    var parts := Pieces(arn);
    if |parts| == 2 && ParseNat(parts[1]).Some? then Some((parts[0], ParseNat(parts[1]).value))
    else None
  }

  /** A parsed ARN ends in `/<family>:<digits>`, with no `:` in the family and
      the revision the value of the digits. */
  lemma FamilyRevisionParts(arn: string)
    requires FamilyRevision(arn).Some?
    ensures ':' !in FamilyRevision(arn).value.0
    ensures exists digits :: LastSegment(arn, "/") == FamilyRevision(arn).value.0 + ":" + digits
                             && ParseNat(digits) == Some(FamilyRevision(arn).value.1)
  {
    var segment := LastSegment(arn, "/");
    var parts := SplitOn(segment, ":");
    SplitPiecesLackSep(segment, ':');
    assert ':' !in parts[0];
    JoinSplit(segment, ':');
    assert parts[1..] == [parts[1]];
    assert segment == parts[0] + ":" + parts[1];
  }

  /** Any ARN ending in `/<family>:<revision>` parses back to that family and
      revision. */
  lemma FamilyRevisionOf(prefix: string, family: string, revision: nat)
    requires '/' !in family && ':' !in family
    ensures FamilyRevision(prefix + "/" + family + ":" + NatToString(revision)) == Some((family, revision))
  {
    var digits := NatToString(revision);
    NatToStringDigits(revision);
    assert '/' !in digits && ':' !in digits by {
      forall i | 0 <= i < |digits| ensures digits[i] != '/' && digits[i] != ':' {
        assert IsDigit(digits[i]);
      }
    }
    var segment := family + ":" + digits;
    assert '/' !in segment;
    assert prefix + "/" + family + ":" + digits == prefix + ['/'] + segment;
    LastSegmentAfter(prefix, '/', segment);
    assert segment == family + [':'] + digits;
    SplitPieceThenSep(family, ':', digits);
    SplitWithoutSep(digits, ':');
    ParseNatToString(revision);
  }

  /** The family of a parseable task-definition ARN. */
  function Family(arn: string): Option<string> {
    match FamilyRevision(arn)
    case Some(fr) => Some(fr.0)
    case None => None
  }

  /** The revision of a parseable task-definition ARN. */
  function Revision(arn: string): int {
    match FamilyRevision(arn)
    case Some(fr) => fr.1
    case None => 0
  }

  // ---------------------------------------------------------------------------
  // The families dictionary
  // ---------------------------------------------------------------------------

  /** One entry `{'arn': arn, 'rev': int(revision)}` of a family's list. */
  datatype Item = Item(arn: string, rev: nat)

  /** The sort key `x['rev']`. */
  function Rev(item: Item): int {
    item.rev
  }

  /** The ARNs that parse, each with its family and as the item filed for it,
      in discovery order. */
  function Parsed(arns: seq<string>): seq<(string, Item)> {
    if |arns| == 0 then []
    else
      var a := arns[|arns| - 1];
      Parsed(arns[..|arns| - 1]) +
        match FamilyRevision(a)
        case Some(fr) => [(fr.0, Item(a, fr.1))]
        case None => []
  }

  /** Exactly the parseable ARNs are filed, under their own family and revision. */
  lemma {:induction false} ParsedMembers(arns: seq<string>)
    ensures forall p :: p in Parsed(arns) <==>
      p.1.arn in arns && FamilyRevision(p.1.arn) == Some((p.0, p.1.rev))
    decreases |arns|
  {
    if |arns| > 0 {
      var init := arns[..|arns| - 1];
      ParsedMembers(init);
      assert arns == init + [arns[|arns| - 1]];
    }
  }

  /** `task_def_families[family]`: the items of that family, in discovery order. */
  function Members(ps: seq<(string, Item)>, family: string): (r: seq<Item>)
    ensures forall it :: it in r <==> (family, it) in ps
  {
    if |ps| == 0 then []
    else
      var init := ps[..|ps| - 1];
      var p := ps[|ps| - 1];
      assert ps == init + [p];
      Members(init, family) + (if p.0 == family then [p.1] else [])
  }

  /** One pass of the grouping loop: the entry for the ARN's family is
      created as soon as the ARN splits, before its revision is read, and the
      item is appended once the revision parses. */
  function File(fams: map<string, seq<Item>>, a: string): map<string, seq<Item>> {
    match SplitFamily(a)
    case None => fams
    case Some(family) =>
      var items := if family in fams then fams[family] else [];
      match FamilyRevision(a)
      case None => fams[family := items]
      case Some(fr) => fams[family := items + [Item(a, fr.1)]]
  }

  /** The `task_def_families` dictionary as the grouping loop builds it. An
      ARN whose revision is no integer leaves its family's entry behind, empty
      if nothing else is filed there. */
  function Families(arns: seq<string>): map<string, seq<Item>> {
    if |arns| == 0 then map[]
    else File(Families(arns[..|arns| - 1]), arns[|arns| - 1])
  }

  /** The dictionary has an entry exactly for the families of the ARNs that
      split, whether or not their revision parses. */
  lemma {:induction false} FamiliesKeys(arns: seq<string>)
    ensures forall f :: f in Families(arns) <==> exists a | a in arns :: SplitFamily(a) == Some(f)
    decreases |arns|
  {
    if |arns| > 0 {
      var init := arns[..|arns| - 1];
      assert arns == init + [arns[|arns| - 1]];
      FamiliesKeys(init);
    }
  }

  /** The item an ARN files under family `f`, if any. */
  function FiledUnder(a: string, f: string): seq<Item> {
    match FamilyRevision(a)
    case Some(fr) => if fr.0 == f then [Item(a, fr.1)] else []
    case None => []
  }

  lemma FileEntry(fams: map<string, seq<Item>>, a: string, f: string)
    requires f in File(fams, a)
    ensures File(fams, a)[f] == (if f in fams then fams[f] else []) + FiledUnder(a, f)
  {
  }

  lemma MembersOfSnoc(arns: seq<string>, a: string, f: string)
    ensures Members(Parsed(arns + [a]), f) == Members(Parsed(arns), f) + FiledUnder(a, f)
  {
    ParsedSnoc(arns, a);
    var fr := FamilyRevision(a);
    if fr.Some? {
      MembersSnoc(Parsed(arns), (fr.value.0, Item(a, fr.value.1)), f);
    } else {
      assert Parsed(arns + [a]) == Parsed(arns);
      assert FiledUnder(a, f) == [];
    }
  }

  lemma FileKeys(fams: map<string, seq<Item>>, a: string, f: string)
    ensures f in File(fams, a) <==> f in fams || SplitFamily(a) == Some(f)
  {
  }

  /** A family without an entry has no items filed. */
  lemma {:induction false} NoEntryNoMembers(arns: seq<string>, f: string)
    requires f !in Families(arns)
    ensures Members(Parsed(arns), f) == []
    decreases |arns|
  {
    if |arns| > 0 {
      var init := arns[..|arns| - 1];
      var a := arns[|arns| - 1];
      assert arns == init + [a];
      assert Families(arns) == File(Families(init), a);
      FileKeys(Families(init), a, f);
      NoEntryNoMembers(init, f);
      MembersOfSnoc(init, a, f);
    }
  }

  /** Each entry lists its family's filed items in discovery order. */
  lemma {:induction false} FamiliesEntries(arns: seq<string>, f: string)
    requires f in Families(arns)
    ensures Families(arns)[f] == Members(Parsed(arns), f)
    decreases |arns|
  {
    var init := arns[..|arns| - 1];
    var a := arns[|arns| - 1];
    assert arns == init + [a];
    var fams := Families(init);
    assert Families(arns) == File(fams, a);
    if f in fams {
      FamiliesEntries(init, f);
    } else {
      NoEntryNoMembers(init, f);
    }
    FileEntry(fams, a, f);
    MembersOfSnoc(init, a, f);
  }

  /** The dictionary has an entry exactly for the families of the ARNs that
      split, whether or not their revision parses, and each entry lists that
      family's filed items in discovery order. */
  lemma FamiliesAreMembers(arns: seq<string>)
    ensures forall f :: f in Families(arns) <==> exists a | a in arns :: SplitFamily(a) == Some(f)
    ensures forall f | f in Families(arns) :: Families(arns)[f] == Members(Parsed(arns), f)
  {
    FamiliesKeys(arns);
    forall f | f in Families(arns) ensures Families(arns)[f] == Members(Parsed(arns), f) {
      FamiliesEntries(arns, f);
    }
  }

  /** A family whose only ARN does not carry an integer revision still gets its
      (empty) entry. */
  lemma EmptyEntryKept(arn: string, f: string)
    requires SplitFamily(arn) == Some(f) && FamilyRevision(arn).None?
    ensures Families([arn]) == map[f := []]
  {
    assert [arn][..0] == [];
  }

  lemma FamilyEntry(arns: seq<string>, f: string)
    requires f in Families(arns)
    ensures Families(arns)[f] == Members(Parsed(arns), f)
  {
    FamiliesAreMembers(arns);
  }

  lemma ParsedSnoc(arns: seq<string>, a: string)
    ensures Parsed(arns + [a]) == Parsed(arns) +
      match FamilyRevision(a)
      case Some(fr) => [(fr.0, Item(a, fr.1))]
      case None => []
  {
    assert (arns + [a])[..|arns|] == arns;
  }

  lemma MembersSnoc(ps: seq<(string, Item)>, p: (string, Item), f: string)
    ensures Members(ps + [p], f) == Members(ps, f) + (if p.0 == f then [p.1] else [])
  {
    assert (ps + [p])[..|ps|] == ps;
  }

  lemma FamiliesSnoc(arns: seq<string>, a: string)
    ensures Families(arns + [a]) == File(Families(arns), a)
  {
    assert (arns + [a])[..|arns|] == arns;
  }

  // ---------------------------------------------------------------------------
  // Ranking and the stale set
  // ---------------------------------------------------------------------------

  /** `items.sort(key=lambda x: x['rev'], reverse=True)`: newest revision first,
      ties in discovery order. */
  function Ranked(items: seq<Item>): (r: seq<Item>)
    ensures multiset(r) == multiset(items)
    ensures forall i, j | 0 <= i < j < |r| :: r[i].rev >= r[j].rev
  {
    IntOrders();
    SortBy(items, Rev, IntGe)
  }

  /** Python's `s[n:]`, which is empty when `s` is shorter than `n`. */
  function Drop<T>(s: seq<T>, n: nat): seq<T> {
    if n <= |s| then s[n..] else []
  }

  /** `items[2:]` once the items are ranked. */
  function StaleItems(items: seq<Item>): seq<Item> {
    Drop(Ranked(items), 2)
  }

  /** `stale_task_arns`: the ARNs of the items beyond the first two of their
      family. */
  function StaleArns(ps: seq<(string, Item)>): (r: set<string>)
    ensures forall a :: a in r <==> exists p | p in ps :: p.1.arn == a && p.1 in StaleItems(Members(ps, p.0))
  {
    set p | p in ps && p.1 in StaleItems(Members(ps, p.0)) :: p.1.arn
  }

  /** Newest first: revisions never increase along `r`. */
  predicate NewestFirst(r: seq<Item>) {
    forall i, j | 0 <= i < j < |r| :: r[i].rev >= r[j].rev
  }

  lemma HigherComesFirst(r: seq<Item>, a: Item, x: Item, y: Item)
    requires NewestFirst(r)
    requires a in r && x in r && y in r && x != y
    requires x.rev > a.rev && y.rev > a.rev
    ensures a in Drop(r, 2)
  {
    var pa :| 0 <= pa < |r| && r[pa] == a;
    var px :| 0 <= px < |r| && r[px] == x;
    var py :| 0 <= py < |r| && r[py] == y;
    assert px < pa && py < pa;
    assert r[2..][pa - 2] == a;
  }

  /** Two distinct items of the family with a strictly higher revision push an
      item out of the two kept. */
  lemma TwoHigherInFamily(items: seq<Item>, a: Item, x: Item, y: Item)
    requires a in items && x in items && y in items && x != y
    requires x.rev > a.rev && y.rev > a.rev
    ensures a in StaleItems(items)
  {
    var r := Ranked(items);
    assert a in multiset(r) && x in multiset(r) && y in multiset(r);
    HigherComesFirst(r, a, x, y);
  }

  lemma FirstTwoHigher(r: seq<Item>, a: Item)
    requires NewestFirst(r) && Unique(r)
    requires forall u, v | u in r && v in r && u != v :: u.rev != v.rev
    requires a in Drop(r, 2)
    ensures |r| >= 3 && r[0].rev > a.rev && r[1].rev > a.rev && r[0] != r[1]
  {
    var k :| 0 <= k < |r[2..]| && r[2..][k] == a;
    assert r[k + 2] == a;
    assert r[0] != a && r[1] != a;
  }

  /** Conversely, in a family without repeated items or revisions, a stale
      item has two strictly newer ones. */
  lemma StaleInFamily(items: seq<Item>, a: Item) returns (x: Item, y: Item)
    requires Unique(items)
    requires forall u, v | u in items && v in items && u != v :: u.rev != v.rev
    requires a in StaleItems(items)
    ensures x in items && y in items && x != y && x.rev > a.rev && y.rev > a.rev
  {
    var r := Ranked(items);
    UniquePermutation(items, r);
    assert forall u | u in r :: u in items by {
      forall u | u in r ensures u in items {
        assert u in multiset(r);
      }
    }
    FirstTwoHigher(r, a);
    x, y := r[0], r[1];
  }

  /** Without repeated ARNs, no item is filed twice in a family. */
  lemma {:induction false} MembersUnique(arns: seq<string>, f: string)
    requires Unique(arns)
    ensures Unique(Members(Parsed(arns), f))
    decreases |arns|
  {
    if |arns| > 0 {
      var init := arns[..|arns| - 1];
      var a := arns[|arns| - 1];
      assert arns == init + [a];
      MembersUnique(init, f);
      ParsedMembers(init);
      ParsedSnoc(init, a);
      match FamilyRevision(a)
      case None =>
        assert Parsed(arns) == Parsed(init);
      case Some(fr) =>
        MembersSnoc(Parsed(init), (fr.0, Item(a, fr.1)), f);
        assert forall it | it in Members(Parsed(init), f) :: it.arn != a;
    }
  }

  /** A parse failure is never stale. */
  lemma UnparseableNeverStale(arns: seq<string>, a: string)
    requires FamilyRevision(a).None?
    ensures a !in StaleArns(Parsed(arns))
  {
    ParsedMembers(arns);
  }

  /** A parseable ARN is stale exactly when its own item is beyond the first
      two of its family. */
  lemma StaleArnItem(arns: seq<string>, a: string)
    requires FamilyRevision(a).Some? && a in arns
    ensures var fr := FamilyRevision(a).value;
      a in StaleArns(Parsed(arns)) <==> Item(a, fr.1) in StaleItems(Members(Parsed(arns), fr.0))
  {
    ParsedMembers(arns);
    var fr := FamilyRevision(a).value;
    assert (fr.0, Item(a, fr.1)) in Parsed(arns);
  }

  /** The newer ARNs of a family: two of them make an ARN stale. */
  ghost predicate TwoNewer(arns: seq<string>, a: string) {
    exists x, y | x in arns && y in arns && x != y ::
      Family(x) == Family(y) == Family(a) && Revision(x) > Revision(a) && Revision(y) > Revision(a)
  }

  /** An ARN with two newer ARNs in its family is stale, whatever else holds. */
  lemma TwoNewerMakesStale(arns: seq<string>, a: string)
    requires a in arns && FamilyRevision(a).Some? && TwoNewer(arns, a)
    ensures a in StaleArns(Parsed(arns))
  {
    var fr := FamilyRevision(a).value;
    var x, y :| x in arns && y in arns && x != y &&
      Family(x) == Family(y) == Family(a) && Revision(x) > Revision(a) && Revision(y) > Revision(a);
    assert FamilyRevision(x).Some? && FamilyRevision(y).Some?;
    var fx := FamilyRevision(x).value;
    var fy := FamilyRevision(y).value;
    assert fx.0 == fr.0 && fy.0 == fr.0 && fx.1 > fr.1 && fy.1 > fr.1;
    var ps := Parsed(arns);
    ParsedMembers(arns);
    var ix := Item(x, fx.1);
    var iy := Item(y, fy.1);
    var ia := Item(a, fr.1);
    assert (fr.0, ix) in ps;
    assert (fr.0, iy) in ps;
    assert (fr.0, ia) in ps;
    var ms := Members(ps, fr.0);
    assert ix in ms && iy in ms && ia in ms;
    TwoHigherInFamily(ms, ia, ix, iy);
    StaleArnItem(arns, a);
  }

  /** Distinct ARNs of one family never share a revision. */
  ghost predicate DistinctRevisions(arns: seq<string>) {
    forall u, v {:trigger Revision(u), Revision(v)}
      | u in arns && v in arns && u != v && Family(u).Some? && Family(u) == Family(v) ::
      Revision(u) != Revision(v)
  }

  lemma ParsedOnly(arns: seq<string>, p: (string, Item))
    requires p in Parsed(arns)
    ensures p.1.arn in arns && FamilyRevision(p.1.arn) == Some((p.0, p.1.rev))
  {
    ParsedMembers(arns);
  }

  /** Distinct items of a family carry distinct revisions. */
  lemma MembersDistinctRevisions(arns: seq<string>, f: string)
    requires DistinctRevisions(arns)
    ensures forall u, v | u in Members(Parsed(arns), f) && v in Members(Parsed(arns), f) && u != v ::
      u.rev != v.rev
  {
    forall u, v | u in Members(Parsed(arns), f) && v in Members(Parsed(arns), f) && u != v
      ensures u.rev != v.rev
    {
      ParsedOnly(arns, (f, u));
      ParsedOnly(arns, (f, v));
      assert u.arn != v.arn;
      assert Revision(u.arn) == u.rev && Revision(v.arn) == v.rev;
    }
  }

  /** In its family, a stale item has two newer items. */
  lemma NewerItems(arns: seq<string>, a: string) returns (x: Item, y: Item)
    requires a in arns && Unique(arns) && DistinctRevisions(arns)
    requires FamilyRevision(a).Some? && a in StaleArns(Parsed(arns))
    ensures var fr := FamilyRevision(a).value;
      (fr.0, x) in Parsed(arns) && (fr.0, y) in Parsed(arns) && x != y && x.rev > fr.1 && y.rev > fr.1
  {
    var fr := FamilyRevision(a).value;
    var items := Members(Parsed(arns), fr.0);
    StaleArnItem(arns, a);
    MembersUnique(arns, fr.0);
    MembersDistinctRevisions(arns, fr.0);
    x, y := StaleInFamily(items, Item(a, fr.1));
  }

  /** With no ARN listed twice and distinct revisions within each family, a
      stale ARN has two newer ARNs in its family: the two newest revisions of
      a family are never stale. */
  lemma StaleHasTwoNewer(arns: seq<string>, a: string)
    requires a in arns && Unique(arns) && DistinctRevisions(arns)
    requires a in StaleArns(Parsed(arns))
    ensures TwoNewer(arns, a)
  {
    if FamilyRevision(a).None? {
      UnparseableNeverStale(arns, a);
    }
    var fr := FamilyRevision(a).value;
    var x, y := NewerItems(arns, a);
    ParsedOnly(arns, (fr.0, x));
    ParsedOnly(arns, (fr.0, y));
    assert x.arn != y.arn;
    assert Family(x.arn) == Family(y.arn) == Family(a);
    assert Revision(x.arn) == x.rev && Revision(y.arn) == y.rev && Revision(a) == fr.1;
  }

  /** Together: under those conditions an ARN is stale iff two newer ARNs of
      its family exist. */
  lemma StaleIffTwoNewer(arns: seq<string>, a: string)
    requires a in arns && FamilyRevision(a).Some? && Unique(arns) && DistinctRevisions(arns)
    ensures a in StaleArns(Parsed(arns)) <==> TwoNewer(arns, a)
  {
    if a in StaleArns(Parsed(arns)) {
      StaleHasTwoNewer(arns, a);
    }
    if TwoNewer(arns, a) {
      TwoNewerMakesStale(arns, a);
    }
  }

  // ---------------------------------------------------------------------------
  // The loops that build the dictionary and the set
  // ---------------------------------------------------------------------------

  /** The grouping loop of `assess_relevance`, over the task-definition ARNs. */
  method CollectFamilies(arns: seq<string>) returns (fams: map<string, seq<Item>>)
    ensures fams == Families(arns)
  {
    fams := map[];
    for j := 0 to |arns|
      invariant fams == Families(arns[..j])
    {
      var a := arns[j];
      assert arns[..j + 1] == arns[..j] + [a];
      FamiliesSnoc(arns[..j], a);
      ghost var filed := File(fams, a);
      var family := SplitFamily(a);
      if family.Some? {
        if family.value !in fams {
          fams := fams[family.value := []];
        }
        var fr := FamilyRevision(a);
        if fr.Some? {
          fams := fams[family.value := fams[family.value] + [Item(a, fr.value.1)]];
        }
      }
      assert fams == filed;
    }
    assert arns[..|arns|] == arns;
  }

  /** The ARNs of some items. */
  function ArnsOf(xs: seq<Item>): set<string> {
    set it | it in xs :: it.arn
  }

  /** `for item in xs: s.add(item['arn'])`. */
  method AddEach(s: set<string>, xs: seq<Item>) returns (r: set<string>)
    ensures r == s + ArnsOf(xs)
  {
    r := s;
    for k := 0 to |xs|
      invariant r == s + ArnsOf(xs[..k])
    {
      assert xs[..k + 1] == xs[..k] + [xs[k]];
      r := r + {xs[k].arn};
    }
    assert xs[..|xs|] == xs;
  }

  /** What the ranking loop has gathered once the families in `done` are done. */
  function StaleOfFamilies(ps: seq<(string, Item)>, done: set<string>): set<string> {
    set p | p in ps && p.0 in done && p.1 in StaleItems(Members(ps, p.0)) :: p.1.arn
  }

  lemma StaleOfOneMore(ps: seq<(string, Item)>, done: set<string>, f: string)
    ensures StaleOfFamilies(ps, done + {f}) == StaleOfFamilies(ps, done) + ArnsOf(StaleItems(Members(ps, f)))
  {
    forall it | it in StaleItems(Members(ps, f)) ensures (f, it) in ps {
      assert it in multiset(Ranked(Members(ps, f)));
    }
  }

  lemma StaleOfAll(arns: seq<string>)
    ensures StaleOfFamilies(Parsed(arns), Families(arns).Keys) == StaleArns(Parsed(arns))
  {
    FamiliesAreMembers(arns);
    ParsedMembers(arns);
    forall p | p in Parsed(arns) ensures p.0 in Families(arns) {
      assert SplitFamily(p.1.arn) == Some(p.0);
    }
  }

  /** The ranking loop: every family sorted newest first and all but its first
      two items added to the stale set. */
  method CollectStale(ghost arns: seq<string>, fams: map<string, seq<Item>>) returns (stale: set<string>)
    requires fams == Families(arns)
    ensures stale == StaleArns(Parsed(arns))
  {
    ghost var ps := Parsed(arns);
    stale := {};
    var todo := fams.Keys;
    while todo != {}
      invariant todo <= fams.Keys
      invariant stale == StaleOfFamilies(ps, fams.Keys - todo)
      decreases |todo|
    {
      var f :| f in todo;
      FamilyEntry(arns, f);
      var items := Ranked(fams[f]);
      StaleOfOneMore(ps, fams.Keys - todo, f);
      stale := AddEach(stale, Drop(items, 2));
      assert fams.Keys - (todo - {f}) == (fams.Keys - todo) + {f};
      todo := todo - {f};
    }
    StaleOfAll(arns);
  }
}
