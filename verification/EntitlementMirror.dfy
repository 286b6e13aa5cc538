/** The dataset-level entitlement table of data-exchange-service, kept in two ways:
    pushed row by row as links and grants change (src/lib/data-product-dataset-directory.ts,
    src/services/mongo/mongo-entitlement-service.ts) and recomputed from scratch
    (data-exchange-service/scripts/sync-cdep-catalog.ts). */
module EntitlementMirror {

  datatype Status = ACTIVE | REVOKED | EXPIRED

  datatype Entitlement = Entitlement(id: nat, tenantId: string, productId: string, status: Status)

  datatype Link = Link(id: nat, productId: string, datasetId: string)

  datatype Access = Access(canUpload: bool, canDownload: bool)

  type Mirror = map<(string, string), Access>

  // ------------------------------------------------------------ what is right

  ghost predicate Linked(links: seq<Link>, product: string, dataset: string) {
    exists l :: l in links && l.productId == product && l.datasetId == dataset
  }

  predicate IsGrant(e: Entitlement, tenant: string, product: string) {
    e.tenantId == tenant && e.productId == product && e.status == ACTIVE
  }

  ghost predicate Active(ents: seq<Entitlement>, tenant: string, product: string) {
    exists e :: e in ents && IsGrant(e, tenant, product)
  }

  /** The simple thing: some data product links the dataset and is ACTIVE for the tenant. */
  ghost predicate Entitled(links: seq<Link>, ents: seq<Entitlement>, tenant: string, dataset: string) {
    exists p :: Linked(links, p, dataset) && Active(ents, tenant, p)
  }

  function Grant(b: bool): Access { Access(b, b) }

  function Read(mirror: Mirror, tenant: string, dataset: string): Access {
    if (tenant, dataset) in mirror then mirror[(tenant, dataset)] else Grant(false)
  }

  ghost predicate Agrees(mirror: Mirror, links: seq<Link>, ents: seq<Entitlement>) {
    forall t, d :: Read(mirror, t, d) == Grant(Entitled(links, ents, t, d))
  }

  predicate OneRowPerPair(links: seq<Link>) {
    forall i, j :: 0 <= i < j < |links| ==>
      links[i].productId != links[j].productId || links[i].datasetId != links[j].datasetId
  }

  // ------------------------------------------------------------ queries

  predicate HasLink(links: seq<Link>, product: string, dataset: string) {
    exists i :: 0 <= i < |links| && links[i].productId == product && links[i].datasetId == dataset
  }

  /** deleteOne: the first row of the pair goes, if there is one. */
  function WithoutFirst(links: seq<Link>, product: string, dataset: string): seq<Link> {
    if links == [] then []
    else if links[0].productId == product && links[0].datasetId == dataset then links[1..]
    else [links[0]] + WithoutFirst(links[1..], product, dataset)
  }

  /** deleteMany: every row of the dataset goes. */
  function WithoutDataset(links: seq<Link>, dataset: string): seq<Link> {
    if links == [] then []
    else (if links[0].datasetId == dataset then [] else [links[0]]) + WithoutDataset(links[1..], dataset)
  }

  function ProductsOf(links: seq<Link>, dataset: string): seq<string> {
    if links == [] then []
    else (if links[0].datasetId == dataset then [links[0].productId] else []) + ProductsOf(links[1..], dataset)
  }

  function DatasetsOf(links: seq<Link>, product: string): seq<string> {
    if links == [] then []
    else (if links[0].productId == product then [links[0].datasetId] else []) + DatasetsOf(links[1..], product)
  }

  /** The tenants of the ACTIVE rows of a product, one entry per row. */
  function ActiveTenants(ents: seq<Entitlement>, product: string): seq<string> {
    if ents == [] then []
    else (if ents[0].productId == product && ents[0].status == ACTIVE then [ents[0].tenantId] else [])
         + ActiveTenants(ents[1..], product)
  }

  predicate IsEntitledToAny(ents: seq<Entitlement>, tenant: string, products: seq<string>) {
    products != []
    && exists i :: 0 <= i < |ents| && ents[i].tenantId == tenant && ents[i].productId in products
                   && ents[i].status == ACTIVE
  }

  /** The place of the tenant's row with that id: the number of rows if there is none. */
  function RowOf(ents: seq<Entitlement>, tenant: string, id: nat): (r: nat)
    ensures r <= |ents|
    ensures r < |ents| ==> ents[r].tenantId == tenant && ents[r].id == id
    ensures forall j :: 0 <= j < r ==> ents[j].tenantId != tenant || ents[j].id != id
  {
    if ents == [] || (ents[0].tenantId == tenant && ents[0].id == id) then 0
    else 1 + RowOf(ents[1..], tenant, id)
  }

  function WithStatus(ents: seq<Entitlement>, tenant: string, id: nat, status: Status): seq<Entitlement> {
    var r := RowOf(ents, tenant, id);
    if r < |ents| then ents[r := ents[r].(status := status)] else ents
  }

  lemma {:induction false} ProductsOfLinks(links: seq<Link>, dataset: string)
    ensures forall p :: p in ProductsOf(links, dataset) <==> Linked(links, p, dataset)
  {
    if links != [] {
      ProductsOfLinks(links[1..], dataset);
      assert links == [links[0]] + links[1..];
      forall p {
        LinkedFirst(links, p, dataset);
      }
    }
  }

  lemma {:induction false} DatasetsOfLinks(links: seq<Link>, product: string)
    ensures forall d :: d in DatasetsOf(links, product) <==> Linked(links, product, d)
  {
    if links != [] {
      DatasetsOfLinks(links[1..], product);
      assert links == [links[0]] + links[1..];
      forall d {
        LinkedFirst(links, product, d);
      }
    }
  }

  lemma LinkedFirst(links: seq<Link>, p: string, d: string)
    requires links != []
    ensures Linked(links, p, d) <==>
            Linked(links[1..], p, d) || (links[0].productId == p && links[0].datasetId == d)
  {
    assert links == [links[0]] + links[1..];
    assert links[0] in links;
    if Linked(links, p, d) {
      var l :| l in links && l.productId == p && l.datasetId == d;
      assert l == links[0] || l in links[1..];
    }
    if Linked(links[1..], p, d) {
      var l :| l in links[1..] && l.productId == p && l.datasetId == d;
      assert l in links;
    }
  }

  lemma LinkedGrows(links: seq<Link>, l: Link, p: string, d: string)
    ensures Linked(links + [l], p, d) <==> Linked(links, p, d) || (l.productId == p && l.datasetId == d)
  {
    if Linked(links, p, d) {
      var k :| k in links && k.productId == p && k.datasetId == d;
      assert k in links + [l];
    }
    if l.productId == p && l.datasetId == d {
      assert l in links + [l];
    }
  }

  lemma {:induction false} ActiveTenantsRows(ents: seq<Entitlement>, product: string)
    ensures forall t :: t in ActiveTenants(ents, product) <==> Active(ents, t, product)
  {
    if ents != [] {
      ActiveTenantsRows(ents[1..], product);
      assert ents == [ents[0]] + ents[1..];
      assert ents[0] in ents;
      forall t ensures t in ActiveTenants(ents, product) <==> Active(ents, t, product) {
        if Active(ents[1..], t, product) {
          var e :| e in ents[1..] && IsGrant(e, t, product);
          assert e in ents;
        }
      }
    }
  }

  lemma GrantAt(ents: seq<Entitlement>, tenant: string, product: string) returns (i: nat)
    requires Active(ents, tenant, product)
    ensures i < |ents| && IsGrant(ents[i], tenant, product)
  {
    var e :| e in ents && IsGrant(e, tenant, product);
    i :| 0 <= i < |ents| && ents[i] == e;
  }

  /** The two queries together decide the simple thing. */
  lemma QueriesDecide(links: seq<Link>, ents: seq<Entitlement>, tenant: string, dataset: string)
    ensures IsEntitledToAny(ents, tenant, ProductsOf(links, dataset)) <==> Entitled(links, ents, tenant, dataset)
  {
    hide Linked;
    ProductsOfLinks(links, dataset);
    if Entitled(links, ents, tenant, dataset) {
      var p :| Linked(links, p, dataset) && Active(ents, tenant, p);
      var i := GrantAt(ents, tenant, p);
      assert p in ProductsOf(links, dataset);
    }
    if IsEntitledToAny(ents, tenant, ProductsOf(links, dataset)) {
      var i :| 0 <= i < |ents| && ents[i].tenantId == tenant && ents[i].productId in ProductsOf(links, dataset)
               && ents[i].status == ACTIVE;
      assert ents[i] in ents && IsGrant(ents[i], tenant, ents[i].productId);
    }
  }

  // ------------------------------------------------------------ one call

  /** Those whose push went through: the others failed and were only logged. */
  function Reached(targets: seq<string>, delivered: nat -> bool): set<string> {
    if targets == [] then {}
    else
      var last := |targets| - 1;
      Reached(targets[..last], delivered) + (if delivered(last) then {targets[last]} else {})
  }

  /** The table after those tenants' rows for one dataset are set to what is right. */
  ghost function Pushed(mirror: Mirror, tenants: set<string>, dataset: string, links: seq<Link>,
                        ents: seq<Entitlement>): Mirror {
    mirror + map t | t in tenants :: (t, dataset) := Grant(Entitled(links, ents, t, dataset))
  }

  /** The table after one tenant's rows for those datasets are set to one decision. */
  function FannedOut(mirror: Mirror, tenant: string, datasets: set<string>, entitled: bool): Mirror {
    mirror + map d | d in datasets :: (tenant, d) := Grant(entitled)
  }

  datatype Operation =
    | Associate(product: string, dataset: string, delivered: nat -> bool)
    | Dissociate(product: string, dataset: string, delivered: nat -> bool)
    | RemoveDataset(dataset: string)
    | GrantProduct(tenant: string, product: string, delivered: nat -> bool)
    | Revoke(tenant: string, id: nat, delivered: nat -> bool)
    | Reactivate(tenant: string, id: nat, delivered: nat -> bool)

  datatype State = State(links: seq<Link>, ents: seq<Entitlement>, mirror: Mirror, nextId: nat)

  ghost function Linking(s: State, links: seq<Link>, product: string, dataset: string,
                         delivered: nat -> bool): State {
    var reached := Reached(ActiveTenants(s.ents, product), delivered);
    s.(links := links, mirror := Pushed(s.mirror, reached, dataset, links, s.ents))
  }

  function Granting(s: State, ents: seq<Entitlement>, tenant: string, product: string, entitled: bool,
                    delivered: nat -> bool): State {
    var reached := Reached(DatasetsOf(s.links, product), delivered);
    s.(ents := ents, mirror := FannedOut(s.mirror, tenant, reached, entitled))
  }

  function SetStatus(s: State, tenant: string, id: nat, status: Status, delivered: nat -> bool): State {
    var r := RowOf(s.ents, tenant, id);
    if r == |s.ents| then s
    else
      Granting(s, WithStatus(s.ents, tenant, id, status), tenant, s.ents[r].productId, status == ACTIVE, delivered)
  }

  ghost function Apply(s: State, op: Operation): State {
    match op
    case Associate(p, d, delivered) =>
      if HasLink(s.links, p, d) then s
      else Linking(s, s.links + [Link(s.nextId, p, d)], p, d, delivered).(nextId := s.nextId + 1)
    case Dissociate(p, d, delivered) => Linking(s, WithoutFirst(s.links, p, d), p, d, delivered)
    case RemoveDataset(d) => s.(links := WithoutDataset(s.links, d))
    case GrantProduct(t, p, delivered) =>
      Granting(s, s.ents + [Entitlement(s.nextId, t, p, ACTIVE)], t, p, true, delivered).(nextId := s.nextId + 1)
    case Revoke(t, id, delivered) => SetStatus(s, t, id, REVOKED, delivered)
    case Reactivate(t, id, delivered) => SetStatus(s, t, id, ACTIVE, delivered)
  }

  lemma ReachOne(targets: seq<string>, i: nat, delivered: nat -> bool)
    requires i < |targets|
    ensures Reached(targets[..i + 1], delivered)
            == Reached(targets[..i], delivered) + if delivered(i) then {targets[i]} else {}
  {
    assert targets[..i + 1][..i] == targets[..i];
  }

  lemma PushOne(mirror: Mirror, tenants: seq<string>, i: nat, delivered: nat -> bool,
                dataset: string, links: seq<Link>, ents: seq<Entitlement>)
    requires i < |tenants|
    ensures Pushed(mirror, Reached(tenants[..i + 1], delivered), dataset, links, ents)
            == var m := Pushed(mirror, Reached(tenants[..i], delivered), dataset, links, ents);
               if delivered(i) then m[(tenants[i], dataset) := Grant(Entitled(links, ents, tenants[i], dataset))] else m
  {
    hide Entitled, Reached;
    ReachOne(tenants, i, delivered);
  }

  lemma FanOutOne(mirror: Mirror, tenant: string, datasets: seq<string>, i: nat, delivered: nat -> bool, b: bool)
    requires i < |datasets|
    ensures FannedOut(mirror, tenant, Reached(datasets[..i + 1], delivered), b)
            == var m := FannedOut(mirror, tenant, Reached(datasets[..i], delivered), b);
               if delivered(i) then m[(tenant, datasets[i]) := Grant(b)] else m
  {
    hide Reached;
    ReachOne(datasets, i, delivered);
  }

  class Portal {
    var links: seq<Link>
    var entitlements: seq<Entitlement>
    var mirror: Mirror
    var nextId: nat

    constructor ()
      ensures Current() == State([], [], map[], 0)
    {
      links, entitlements, mirror, nextId := [], [], map[], 0;
    }

    function Current(): State
      reads this
    {
      State(links, entitlements, mirror, nextId)
    }

    method SyncDatasetEntitlement(tenant: string, dataset: string, entitled: bool, delivered: bool)
      modifies this`mirror
      ensures mirror == if delivered then old(mirror)[(tenant, dataset) := Grant(entitled)] else old(mirror)
    {
      if delivered {
        mirror := mirror[(tenant, dataset) := Access(entitled, entitled)];
      }
    }

    method AssociateDataset(product: string, dataset: string, delivered: nat -> bool)
      modifies this`links, this`mirror, this`nextId
      ensures Current() == Apply(old(Current()), Associate(product, dataset, delivered))
    {
      hide Entitled;
      if HasLink(links, product, dataset) {
        return;
      }
      links := links + [Link(nextId, product, dataset)];
      nextId := nextId + 1;
      var tenants := ActiveTenants(entitlements, product);
      ActiveTenantsRows(entitlements, product);
      LinkedGrows(old(links), links[|links| - 1], product, dataset);
      ghost var before, now := mirror, links;
      for i := 0 to |tenants|
        invariant links == now && nextId == old(nextId) + 1
        invariant mirror == Pushed(before, Reached(tenants[..i], delivered), dataset, links, entitlements)
      {
        LinkEntitles(links, entitlements, tenants[i], product, dataset);
        PushOne(before, tenants, i, delivered, dataset, links, entitlements);
        SyncDatasetEntitlement(tenants[i], dataset, true, delivered(i));
      }
      assert tenants[..|tenants|] == tenants;
    }

    method DissociateDataset(product: string, dataset: string, delivered: nat -> bool)
      modifies this`links, this`mirror
      ensures Current() == Apply(old(Current()), Dissociate(product, dataset, delivered))
    {
      hide Entitled;
      links := WithoutFirst(links, product, dataset);
      var remaining := ProductsOf(links, dataset);
      var tenants := ActiveTenants(entitlements, product);
      ghost var before, now := mirror, links;
      for i := 0 to |tenants|
        invariant links == now
        invariant mirror == Pushed(before, Reached(tenants[..i], delivered), dataset, links, entitlements)
      {
        var stillEntitled := IsEntitledToAny(entitlements, tenants[i], remaining);
        QueriesDecide(links, entitlements, tenants[i], dataset);
        PushOne(before, tenants, i, delivered, dataset, links, entitlements);
        SyncDatasetEntitlement(tenants[i], dataset, stillEntitled, delivered(i));
      }
      assert tenants[..|tenants|] == tenants;
    }

    method DissociateAllForDataset(dataset: string)
      modifies this`links
      ensures Current() == Apply(old(Current()), RemoveDataset(dataset))
    {
      links := WithoutDataset(links, dataset);
    }

    /** One tenant's decision, fanned out to every dataset linked to the product. */
    method SyncEntitlement(tenant: string, product: string, entitled: bool, delivered: nat -> bool)
      modifies this`mirror
      ensures mirror == FannedOut(old(mirror), tenant, Reached(DatasetsOf(links, product), delivered), entitled)
    {
      var datasets := DatasetsOf(links, product);
      ghost var before := mirror;
      for i := 0 to |datasets|
        invariant mirror == FannedOut(before, tenant, Reached(datasets[..i], delivered), entitled)
      {
        FanOutOne(before, tenant, datasets, i, delivered, entitled);
        SyncDatasetEntitlement(tenant, datasets[i], entitled, delivered(i));
      }
      assert datasets[..|datasets|] == datasets;
    }

    method GrantEntitlement(tenant: string, product: string, delivered: nat -> bool)
      modifies this`entitlements, this`mirror, this`nextId
      ensures Current() == Apply(old(Current()), GrantProduct(tenant, product, delivered))
    {
      entitlements := entitlements + [Entitlement(nextId, tenant, product, ACTIVE)];
      nextId := nextId + 1;
      SyncEntitlement(tenant, product, true, delivered);
    }

    method RevokeEntitlement(tenant: string, id: nat, delivered: nat -> bool)
      modifies this`entitlements, this`mirror
      ensures Current() == Apply(old(Current()), Revoke(tenant, id, delivered))
    {
      var r := RowOf(entitlements, tenant, id);
      var found := r < |entitlements|;
      var product := if found then entitlements[r].productId else "";
      entitlements := WithStatus(entitlements, tenant, id, REVOKED);
      if found {
        SyncEntitlement(tenant, product, false, delivered);
      }
    }

    method ReactivateEntitlement(tenant: string, id: nat, delivered: nat -> bool)
      modifies this`entitlements, this`mirror
      ensures Current() == Apply(old(Current()), Reactivate(tenant, id, delivered))
    {
      var r := RowOf(entitlements, tenant, id);
      var found := r < |entitlements|;
      var product := if found then entitlements[r].productId else "";
      entitlements := WithStatus(entitlements, tenant, id, ACTIVE);
      if found {
        SyncEntitlement(tenant, product, true, delivered);
      }
    }

    /** The reconciliation script: links and ACTIVE entitlements grouped into maps of
        sets, then every (tenant, dataset) pair of the catalogue upserted. */
    method SyncCatalog(tenants: seq<string>, datasets: seq<string>)
      modifies this`mirror
      ensures Refreshed(mirror, old(mirror), Pairs(tenants, datasets), links, entitlements)
    {
      var productsByDataset := GroupLinks();
      var productsByTenant := GroupEntitlements();
      ghost var before := mirror;
      NoPairs(datasets);
      assert tenants[..0] == [];
      assert Refreshed(mirror, before, {}, links, entitlements);
      hide Entitled, Pairs, Linked, Active, Refreshed;
      for i := 0 to |tenants|
        invariant Refreshed(mirror, before, Pairs(tenants[..i], datasets), links, entitlements)
      {
        var entitledProducts := if tenants[i] in productsByTenant then productsByTenant[tenants[i]] else {};
        ghost var done := Pairs(tenants[..i], datasets);
        assert done + Pairs([tenants[i]], datasets[..0]) == done by { NoPairs(datasets); }
        for j := 0 to |datasets|
          invariant Refreshed(mirror, before, done + Pairs([tenants[i]], datasets[..j]), links, entitlements)
        {
          var parents := if datasets[j] in productsByDataset then productsByDataset[datasets[j]] else {};
          var entitled := exists p :: p in parents && p in entitledProducts;
          GroupsDecide(productsByDataset, productsByTenant, tenants[i], datasets[j]);
          PairsByDataset(tenants[i], datasets, j);
          RefreshOne(mirror, before, done + Pairs([tenants[i]], datasets[..j]), links, entitlements,
                     tenants[i], datasets[j]);
          assert done + Pairs([tenants[i]], datasets[..j]) + {(tenants[i], datasets[j])}
              == done + Pairs([tenants[i]], datasets[..j + 1]);
          mirror := mirror[(tenants[i], datasets[j]) := Access(entitled, entitled)];
        }
        assert datasets[..|datasets|] == datasets;
        PairsByTenant(tenants, i, datasets);
      }
      assert tenants[..|tenants|] == tenants;
    }

    method GroupLinks() returns (m: map<string, set<string>>)
      ensures forall d, p :: d in m && p in m[d] <==> Linked(links, p, d)
    {
      m := map[];
      ghost var seen: seq<Link> := [];
      for i := 0 to |links|
        invariant seen == links[..i]
        invariant forall d, p :: d in m && p in m[d] <==> Linked(seen, p, d)
      {
        var l := links[i];
        forall d, p
          ensures Linked(seen + [l], p, d) <==> Linked(seen, p, d) || (l.productId == p && l.datasetId == d)
        {
          LinkedGrows(seen, l, p, d);
        }
        if l.datasetId !in m {
          m := m[l.datasetId := {}];
        }
        m := m[l.datasetId := m[l.datasetId] + {l.productId}];
        seen := seen + [l];
      }
      assert links[..|links|] == links;
    }

    method GroupEntitlements() returns (m: map<string, set<string>>)
      ensures forall t, p :: t in m && p in m[t] <==> Active(entitlements, t, p)
    {
      m := map[];
      ghost var seen: seq<Entitlement> := [];
      for i := 0 to |entitlements|
        invariant seen == entitlements[..i]
        invariant forall t, p :: t in m && p in m[t] <==> Active(seen, t, p)
      {
        var e := entitlements[i];
        forall t, p
          ensures Active(seen + [e], t, p) <==> Active(seen, t, p) || IsGrant(e, t, p)
        {
          ActiveGrows(seen, e, t, p);
        }
        if e.status == ACTIVE {
          if e.tenantId !in m {
            m := m[e.tenantId := {}];
          }
          m := m[e.tenantId := m[e.tenantId] + {e.productId}];
        }
        seen := seen + [e];
      }
      assert entitlements[..|entitlements|] == entitlements;
    }

    lemma GroupsDecide(byDataset: map<string, set<string>>, byTenant: map<string, set<string>>, t: string, d: string)
      requires forall d, p :: d in byDataset && p in byDataset[d] <==> Linked(links, p, d)
      requires forall t, p :: t in byTenant && p in byTenant[t] <==> Active(entitlements, t, p)
      ensures var parents := if d in byDataset then byDataset[d] else {};
              var mine := if t in byTenant then byTenant[t] else {};
              (exists p :: p in parents && p in mine) <==> Entitled(links, entitlements, t, d)
    {
      hide Linked, Active;
      if Entitled(links, entitlements, t, d) {
        var p :| Linked(links, p, d) && Active(entitlements, t, p);
        assert p in byDataset[d] && p in byTenant[t];
      }
    }
  }

  lemma ActiveGrows(ents: seq<Entitlement>, e: Entitlement, t: string, p: string)
    ensures Active(ents + [e], t, p) <==> Active(ents, t, p) || IsGrant(e, t, p)
  {
    if Active(ents, t, p) {
      var g :| g in ents && IsGrant(g, t, p);
      assert g in ents + [e];
    }
    if IsGrant(e, t, p) {
      assert e in ents + [e];
    }
  }

  lemma LinkEntitles(links: seq<Link>, ents: seq<Entitlement>, t: string, p: string, d: string)
    requires Linked(links, p, d) && Active(ents, t, p)
    ensures Entitled(links, ents, t, d)
  {
  }

  ghost function Pairs(tenants: seq<string>, datasets: seq<string>): set<(string, string)> {
    set t, d | t in tenants && d in datasets :: (t, d)
  }

  lemma NoPairs(datasets: seq<string>)
    ensures Pairs([], datasets) == {} && forall ts :: Pairs(ts, []) == {}
  {
  }

  lemma PairsByDataset(t: string, datasets: seq<string>, j: nat)
    requires j < |datasets|
    ensures Pairs([t], datasets[..j + 1]) == Pairs([t], datasets[..j]) + {(t, datasets[j])}
  {
    assert datasets[..j + 1] == datasets[..j] + [datasets[j]];
  }

  lemma PairsByTenant(tenants: seq<string>, i: nat, datasets: seq<string>)
    requires i < |tenants|
    ensures Pairs(tenants[..i + 1], datasets) == Pairs(tenants[..i], datasets) + Pairs([tenants[i]], datasets)
  {
    assert tenants[..i + 1] == tenants[..i] + [tenants[i]];
  }

  /** `mirror` is `before` with the rows of those pairs set to what is right. */
  ghost predicate Refreshed(mirror: Mirror, before: Mirror, pairs: set<(string, string)>,
                            links: seq<Link>, ents: seq<Entitlement>) {
    && mirror.Keys == before.Keys + pairs
    && forall k :: k in mirror ==>
         mirror[k] == if k in pairs then Grant(Entitled(links, ents, k.0, k.1)) else before[k]
  }

  lemma RefreshOne(mirror: Mirror, before: Mirror, pairs: set<(string, string)>, links: seq<Link>,
                   ents: seq<Entitlement>, t: string, d: string)
    requires Refreshed(mirror, before, pairs, links, ents)
    ensures Refreshed(mirror[(t, d) := Grant(Entitled(links, ents, t, d))], before, pairs + {(t, d)}, links, ents)
  {
    hide Entitled;
  }

  // ------------------------------------------------------------ what a call does to links and grants

  lemma {:induction false} WithoutFirstRows(links: seq<Link>, p: string, d: string)
    ensures forall l :: l in WithoutFirst(links, p, d) ==> l in links
    ensures forall l :: l in links && (l.productId != p || l.datasetId != d) ==> l in WithoutFirst(links, p, d)
  {
    if links != [] {
      WithoutFirstRows(links[1..], p, d);
      assert links == [links[0]] + links[1..];
    }
  }

  lemma {:induction false} WithoutFirstOnce(links: seq<Link>, p: string, d: string)
    requires OneRowPerPair(links)
    ensures OneRowPerPair(WithoutFirst(links, p, d)) && !Linked(WithoutFirst(links, p, d), p, d)
  {
    if links != [] {
      var rest := links[1..];
      WithoutFirstOnce(rest, p, d);
      WithoutFirstRows(rest, p, d);
      forall i | 0 <= i < |rest|
        ensures rest[i].productId != links[0].productId || rest[i].datasetId != links[0].datasetId
      {
        assert rest[i] == links[i + 1];
      }
      if links[0].productId != p || links[0].datasetId != d {
        FirstApart(links[0], WithoutFirst(rest, p, d), rest);
      }
    }
  }

  lemma FirstApart(l: Link, kept: seq<Link>, rest: seq<Link>)
    requires OneRowPerPair(kept) && forall k :: k in kept ==> k in rest
    requires forall i :: 0 <= i < |rest| ==> rest[i].productId != l.productId || rest[i].datasetId != l.datasetId
    ensures OneRowPerPair([l] + kept)
  {
    forall j | 0 <= j < |kept| ensures kept[j].productId != l.productId || kept[j].datasetId != l.datasetId {
      assert kept[j] in rest;
    }
  }

  lemma WithoutFirstLinks(links: seq<Link>, p: string, d: string)
    ensures forall l :: l in WithoutFirst(links, p, d) ==> l in links
    ensures forall l :: l in links && (l.productId != p || l.datasetId != d) ==> l in WithoutFirst(links, p, d)
    ensures OneRowPerPair(links) ==>
              OneRowPerPair(WithoutFirst(links, p, d)) && !Linked(WithoutFirst(links, p, d), p, d)
  {
    hide WithoutFirst, OneRowPerPair, Linked;
    WithoutFirstRows(links, p, d);
    if OneRowPerPair(links) {
      WithoutFirstOnce(links, p, d);
    }
  }

  lemma {:induction false} WithoutDatasetLinks(links: seq<Link>, d: string)
    ensures forall l :: l in WithoutDataset(links, d) <==> l in links && l.datasetId != d
    ensures OneRowPerPair(links) ==> OneRowPerPair(WithoutDataset(links, d))
  {
    if links != [] {
      WithoutDatasetLinks(links[1..], d);
      assert links == [links[0]] + links[1..];
      if OneRowPerPair(links) && links[0].datasetId != d {
        var rest := WithoutDataset(links[1..], d);
        forall j | 0 <= j < |rest|
          ensures links[0].productId != rest[j].productId || links[0].datasetId != rest[j].datasetId
        {
          assert rest[j] in links[1..];
        }
      }
    }
  }

  predicate FullyDelivered(targets: seq<string>, delivered: nat -> bool) {
    forall i :: 0 <= i < |targets| ==> delivered(i)
  }

  /** Every push the call makes goes through. */
  predicate AllDelivered(s: State, op: Operation) {
    match op
    case Associate(p, _, delivered) => FullyDelivered(ActiveTenants(s.ents, p), delivered)
    case Dissociate(p, _, delivered) => FullyDelivered(ActiveTenants(s.ents, p), delivered)
    case RemoveDataset(_) => true
    case GrantProduct(_, p, delivered) => FullyDelivered(DatasetsOf(s.links, p), delivered)
    case Revoke(t, id, delivered) =>
      var r := RowOf(s.ents, t, id);
      r < |s.ents| ==> FullyDelivered(DatasetsOf(s.links, s.ents[r].productId), delivered)
    case Reactivate(t, id, delivered) =>
      var r := RowOf(s.ents, t, id);
      r < |s.ents| ==> FullyDelivered(DatasetsOf(s.links, s.ents[r].productId), delivered)
  }

  lemma {:induction false} ReachedAll(targets: seq<string>, delivered: nat -> bool)
    requires FullyDelivered(targets, delivered)
    ensures forall t :: t in targets <==> t in Reached(targets, delivered)
  {
    if targets != [] {
      var last := |targets| - 1;
      ReachedAll(targets[..last], delivered);
      assert targets == targets[..last] + [targets[last]];
    }
  }

  lemma {:induction false} ReachedAreTargets(targets: seq<string>, delivered: nat -> bool)
    ensures forall t :: t in Reached(targets, delivered) ==> t in targets
  {
    if targets != [] {
      ReachedAreTargets(targets[..|targets| - 1], delivered);
    }
  }

  /** Links of other pairs decide the same, for whoever has no ACTIVE row of the product. */
  lemma SameElsewhere(links: seq<Link>, after: seq<Link>, ents: seq<Entitlement>, p: string, d: string,
                      t: string, e: string)
    requires forall l: Link :: l.productId != p || l.datasetId != d ==> (l in links <==> l in after)
    requires e != d || !Active(ents, t, p)
    ensures Entitled(links, ents, t, e) <==> Entitled(after, ents, t, e)
  {
    hide Active;
    forall q | q != p || e != d ensures Linked(links, q, e) <==> Linked(after, q, e) {
    }
  }

  /** Linking or unlinking, fully delivered, keeps the table right. */
  lemma LinkingKeeps(s: State, after: seq<Link>, p: string, d: string, delivered: nat -> bool)
    requires Agrees(s.mirror, s.links, s.ents) && FullyDelivered(ActiveTenants(s.ents, p), delivered)
    requires forall l: Link :: l.productId != p || l.datasetId != d ==> (l in s.links <==> l in after)
    ensures var r := Linking(s, after, p, d, delivered); Agrees(r.mirror, r.links, r.ents)
  {
    hide Entitled, Active, ActiveTenants, Reached;
    var r := Linking(s, after, p, d, delivered);
    ActiveTenantsRows(s.ents, p);
    ReachedAll(ActiveTenants(s.ents, p), delivered);
    forall t, e ensures Read(r.mirror, t, e) == Grant(Entitled(after, s.ents, t, e)) {
      if e != d || !Active(s.ents, t, p) {
        SameElsewhere(s.links, after, s.ents, p, d, t, e);
      }
      assert Read(s.mirror, t, e) == Grant(Entitled(s.links, s.ents, t, e));
    }
  }

  /** The grants of other tenants and products are the same before and after. */
  ghost predicate OnlyGrant(ents: seq<Entitlement>, after: seq<Entitlement>, tenant: string, product: string) {
    forall t, p :: t != tenant || p != product ==> (Active(ents, t, p) <==> Active(after, t, p))
  }

  /** Fanning a decision out keeps the table right if and only if the decision is right
      for every dataset of the product. */
  lemma GrantingAgreesIff(s: State, after: seq<Entitlement>, t: string, p: string, b: bool, delivered: nat -> bool)
    requires Agrees(s.mirror, s.links, s.ents) && FullyDelivered(DatasetsOf(s.links, p), delivered)
    requires OnlyGrant(s.ents, after, t, p)
    ensures var r := Granting(s, after, t, p, b, delivered);
            Agrees(r.mirror, r.links, r.ents)
            <==> forall d :: Linked(s.links, p, d) ==> (Entitled(s.links, after, t, d) <==> b)
  {
    hide Active, Linked, DatasetsOf, Reached;
    var r := Granting(s, after, t, p, b, delivered);
    DatasetsOfLinks(s.links, p);
    ReachedAll(DatasetsOf(s.links, p), delivered);
    forall u, d
      ensures Read(r.mirror, u, d) == Grant(Entitled(s.links, after, u, d))
              <==> (u == t && Linked(s.links, p, d) ==> (Entitled(s.links, after, t, d) <==> b))
    {
      if u != t || !Linked(s.links, p, d) {
        assert Read(s.mirror, u, d) == Grant(Entitled(s.links, s.ents, u, d));
      }
    }
  }

  /** Setting one row's status moves no grant of another tenant or product. */
  lemma StatusMoves(ents: seq<Entitlement>, t: string, id: nat, status: Status)
    requires RowOf(ents, t, id) < |ents|
    ensures OnlyGrant(ents, WithStatus(ents, t, id, status), t, ents[RowOf(ents, t, id)].productId)
    ensures status == ACTIVE ==>
              Active(WithStatus(ents, t, id, status), t, ents[RowOf(ents, t, id)].productId)
  {
    var r := RowOf(ents, t, id);
    var after, p := WithStatus(ents, t, id, status), ents[RowOf(ents, t, id)].productId;
    assert after[r] in after;
    forall u, q | u != t || q != p ensures Active(ents, u, q) <==> Active(after, u, q) {
      if Active(ents, u, q) {
        var j := GrantAt(ents, u, q);
        assert after[j] == ents[j] && after[j] in after;
      }
      if Active(after, u, q) {
        var j := GrantAt(after, u, q);
        assert after[j] == ents[j] && ents[j] in ents;
      }
    }
  }

  /** Another ACTIVE row of the tenant, of a product that links the dataset too. */
  ghost predicate Covered(s: State, r: nat, dataset: string)
    requires r < |s.ents|
  {
    exists j :: 0 <= j < |s.ents| && j != r && s.ents[j].tenantId == s.ents[r].tenantId
                && s.ents[j].status == ACTIVE && Linked(s.links, s.ents[j].productId, dataset)
  }

  lemma CoveredIsEntitled(s: State, t: string, id: nat, d: string)
    requires RowOf(s.ents, t, id) < |s.ents|
    ensures Entitled(s.links, WithStatus(s.ents, t, id, REVOKED), t, d) <==> Covered(s, RowOf(s.ents, t, id), d)
  {
    hide Linked;
    var r, after := RowOf(s.ents, t, id), WithStatus(s.ents, t, id, REVOKED);
    if Entitled(s.links, after, t, d) {
      var p :| Linked(s.links, p, d) && Active(after, t, p);
      var j := GrantAt(after, t, p);
      assert j != r && s.ents[j] == after[j];
    }
    if Covered(s, r, d) {
      var j :| 0 <= j < |s.ents| && j != r && s.ents[j].tenantId == t && s.ents[j].status == ACTIVE
               && Linked(s.links, s.ents[j].productId, d);
      assert after[j] == s.ents[j] && after[j] in after && IsGrant(after[j], t, s.ents[j].productId);
      assert Active(after, t, s.ents[j].productId);
    }
  }

  // ------------------------------------------------------------ what every call keeps

  /** Who must not be there for a call to leave the table right: anybody entitled to a
      dataset that is removed; another grant covering a dataset of a revoked product. */
  ghost predicate Harmless(s: State, op: Operation) {
    match op
    case RemoveDataset(d) => forall t :: !Entitled(s.links, s.ents, t, d)
    case Revoke(t, id, _) =>
      var r := RowOf(s.ents, t, id);
      r < |s.ents| ==> forall d :: Linked(s.links, s.ents[r].productId, d) ==> !Covered(s, r, d)
    case _ => true
  }

  /** Removing a dataset takes everybody's entitlement to it and no other. */
  lemma RemovalEntitles(s: State, d: string)
    ensures forall t, e ::
              Entitled(WithoutDataset(s.links, d), s.ents, t, e) <==> e != d && Entitled(s.links, s.ents, t, e)
  {
    hide Active;
    var after := WithoutDataset(s.links, d);
    WithoutDatasetLinks(s.links, d);
    forall t, e ensures Entitled(after, s.ents, t, e) <==> e != d && Entitled(s.links, s.ents, t, e) {
      forall q ensures Linked(after, q, e) <==> e != d && Linked(s.links, q, e) {
      }
    }
  }

  lemma RemovalAgreesIff(s: State, d: string)
    requires Agrees(s.mirror, s.links, s.ents)
    ensures var r := Apply(s, RemoveDataset(d));
            Agrees(r.mirror, r.links, r.ents) <==> forall t :: !Entitled(s.links, s.ents, t, d)
  {
    hide Entitled;
    RemovalEntitles(s, d);
    forall t ensures Read(s.mirror, t, d) == Grant(Entitled(s.links, s.ents, t, d)) {
    }
  }

  lemma StatusAgreesIff(s: State, t: string, id: nat, status: Status, delivered: nat -> bool)
    requires Agrees(s.mirror, s.links, s.ents) && status != EXPIRED
    requires AllDelivered(s, if status == ACTIVE then Reactivate(t, id, delivered) else Revoke(t, id, delivered))
    ensures var r := SetStatus(s, t, id, status, delivered);
            Agrees(r.mirror, r.links, r.ents) <==> status == ACTIVE || Harmless(s, Revoke(t, id, delivered))
  {
    hide Entitled, Linked, Active, DatasetsOf, FullyDelivered, OnlyGrant, Agrees, Granting;
    var r := RowOf(s.ents, t, id);
    if r < |s.ents| {
      var after, p := WithStatus(s.ents, t, id, status), s.ents[r].productId;
      StatusMoves(s.ents, t, id, status);
      GrantingAgreesIff(s, after, t, p, status == ACTIVE, delivered);
      forall d | Linked(s.links, p, d)
        ensures Entitled(s.links, after, t, d) <==> status == ACTIVE || Covered(s, r, d)
      {
        if status == ACTIVE {
          LinkEntitles(s.links, after, t, p, d);
        } else {
          CoveredIsEntitled(s, t, id, d);
        }
      }
    }
  }

  lemma GrantKeeps(s: State, t: string, p: string, delivered: nat -> bool)
    requires Agrees(s.mirror, s.links, s.ents) && AllDelivered(s, GrantProduct(t, p, delivered))
    ensures var r := Apply(s, GrantProduct(t, p, delivered)); Agrees(r.mirror, r.links, r.ents)
  {
    hide Entitled, Linked, Active, DatasetsOf, Agrees, FullyDelivered;
    var e := Entitlement(s.nextId, t, p, ACTIVE);
    forall u, q ensures Active(s.ents + [e], u, q) <==> Active(s.ents, u, q) || IsGrant(e, u, q) {
      ActiveGrows(s.ents, e, u, q);
    }
    GrantingAgreesIff(s, s.ents + [e], t, p, true, delivered);
    forall d | Linked(s.links, p, d) ensures Entitled(s.links, s.ents + [e], t, d) {
      LinkEntitles(s.links, s.ents + [e], t, p, d);
    }
  }

  /** A fully delivered call keeps the table equal to the recompute if and only if nobody
      holds a removed dataset, or covers a dataset of a revoked product. */
  lemma CallAgreesIff(s: State, op: Operation)
    requires Agrees(s.mirror, s.links, s.ents) && AllDelivered(s, op)
    ensures Agrees(Apply(s, op).mirror, Apply(s, op).links, Apply(s, op).ents) <==> Harmless(s, op)
  {
    hide Agrees, Entitled, Linked, Linking, Granting, Covered, HasLink, WithoutFirst, WithoutDataset, FullyDelivered;
    match op
    case Associate(p, d, delivered) =>
      var after := s.links + [Link(s.nextId, p, d)];
      LinkingKeeps(s, after, p, d, delivered);
    case Dissociate(p, d, delivered) =>
      WithoutFirstLinks(s.links, p, d);
      LinkingKeeps(s, WithoutFirst(s.links, p, d), p, d, delivered);
    case RemoveDataset(d) => RemovalAgreesIff(s, d);
    case GrantProduct(t, p, delivered) => GrantKeeps(s, t, p, delivered);
    case Revoke(t, id, delivered) => StatusAgreesIff(s, t, id, REVOKED, delivered);
    case Reactivate(t, id, delivered) => StatusAgreesIff(s, t, id, ACTIVE, delivered);
  }

  /** At most one link row per pair, whatever happens to the pushes. */
  lemma CallKeepsOneRow(s: State, op: Operation)
    requires OneRowPerPair(s.links)
    ensures OneRowPerPair(Apply(s, op).links)
    ensures op.Associate? || op.Dissociate? ==>
              (Linked(Apply(s, op).links, op.product, op.dataset) <==> op.Associate?)
    ensures op.RemoveDataset? ==> forall p :: !Linked(Apply(s, op).links, p, op.dataset)
  {
    hide Pushed, FannedOut, Reached;
    var links := Apply(s, op).links;
    match op
    case Associate(p, d, _) =>
      if HasLink(s.links, p, d) {
        var i :| 0 <= i < |s.links| && s.links[i].productId == p && s.links[i].datasetId == d;
        assert s.links[i] in links;
      } else {
        assert links[|links| - 1] in links;
      }
    case Dissociate(p, d, _) => WithoutFirstLinks(s.links, p, d);
    case RemoveDataset(d) => WithoutDatasetLinks(s.links, d);
    case _ =>
  }

  // ------------------------------------------------------------ what each call does, spelled out

  lemma FannedOutRows(mirror: Mirror, t: string, datasets: set<string>, b: bool)
    ensures var after := FannedOut(mirror, t, datasets, b);
            && (forall d :: d in datasets ==> Read(after, t, d) == Access(b, b))
            && (forall u, d :: u != t || d !in datasets ==> Read(after, u, d) == Read(mirror, u, d))
  {
  }

  /** A new ACTIVE row at the end, and "yes" to every dataset of the product and nothing else. */
  lemma GrantDoes(s: State, t: string, p: string, delivered: nat -> bool)
    requires AllDelivered(s, GrantProduct(t, p, delivered))
    ensures var r := Apply(s, GrantProduct(t, p, delivered));
            && r.ents == s.ents + [Entitlement(s.nextId, t, p, ACTIVE)] && r.nextId == s.nextId + 1
            && r.links == s.links && Active(r.ents, t, p)
            && (forall d :: Linked(s.links, p, d) ==> Read(r.mirror, t, d) == Access(true, true))
            && (forall u, d :: u != t || !Linked(s.links, p, d) ==> Read(r.mirror, u, d) == Read(s.mirror, u, d))
  {
    hide Linked, FannedOut, DatasetsOf, Reached;
    DatasetsOfLinks(s.links, p);
    ReachedAll(DatasetsOf(s.links, p), delivered);
    FannedOutRows(s.mirror, t, Reached(DatasetsOf(s.links, p), delivered), true);
    var r := Apply(s, GrantProduct(t, p, delivered));
    assert r.ents[|s.ents|] in r.ents && IsGrant(r.ents[|s.ents|], t, p);
  }

  /** The tenant's first row with that id. */
  predicate TheRow(ents: seq<Entitlement>, t: string, id: nat, i: nat) {
    && i < |ents| && ents[i].tenantId == t && ents[i].id == id
    && forall j :: 0 <= j < i ==> ents[j].tenantId != t || ents[j].id != id
  }

  lemma TheRowIs(ents: seq<Entitlement>, t: string, id: nat, i: nat)
    requires TheRow(ents, t, id, i)
    ensures RowOf(ents, t, id) == i
  {
    var r := RowOf(ents, t, id);
    assert ents[i].tenantId == t && ents[i].id == id;
    assert r < |ents| && ents[r].tenantId == t && ents[r].id == id;
  }

  /** That row REVOKED, or ACTIVE again, every other row, link and decision as it was, and the
      same answer, "no" or "yes", to every dataset of its product. */
  lemma StatusDoes(s: State, t: string, id: nat, revoke: bool, delivered: nat -> bool, i: nat)
    requires TheRow(s.ents, t, id, i)
    requires AllDelivered(s, if revoke then Revoke(t, id, delivered) else Reactivate(t, id, delivered))
    ensures var r := Apply(s, if revoke then Revoke(t, id, delivered) else Reactivate(t, id, delivered));
            var p := s.ents[i].productId;
            && |r.ents| == |s.ents| && (forall j :: 0 <= j < |s.ents| && j != i ==> r.ents[j] == s.ents[j])
            && r.ents[i] == Entitlement(id, t, p, if revoke then REVOKED else ACTIVE)
            && (!revoke ==> Active(r.ents, t, p))
            && r.links == s.links && r.nextId == s.nextId
            && (forall d :: Linked(s.links, p, d) ==> Read(r.mirror, t, d) == Access(!revoke, !revoke))
            && (forall u, d :: u != t || !Linked(s.links, p, d) ==> Read(r.mirror, u, d) == Read(s.mirror, u, d))
  {
    hide Linked, FannedOut, DatasetsOf, Reached, RowOf;
    TheRowIs(s.ents, t, id, i);
    var p := s.ents[i].productId;
    DatasetsOfLinks(s.links, p);
    ReachedAll(DatasetsOf(s.links, p), delivered);
    FannedOutRows(s.mirror, t, Reached(DatasetsOf(s.links, p), delivered), !revoke);
    var r := Apply(s, if revoke then Revoke(t, id, delivered) else Reactivate(t, id, delivered));
    assert r.ents[i] in r.ents;
  }

  /** An id the tenant has no row with changes nothing. */
  lemma UnknownRow(s: State, t: string, id: nat, delivered: nat -> bool)
    requires forall j :: 0 <= j < |s.ents| ==> s.ents[j].tenantId != t || s.ents[j].id != id
    ensures Apply(s, Revoke(t, id, delivered)) == s && Apply(s, Reactivate(t, id, delivered)) == s
  {
    assert RowOf(s.ents, t, id) == |s.ents|;
  }

  lemma PushedRows(mirror: Mirror, tenants: set<string>, d: string, links: seq<Link>, ents: seq<Entitlement>)
    ensures var after := Pushed(mirror, tenants, d, links, ents);
            && (forall t :: t in tenants ==> Read(after, t, d) == Grant(Entitled(links, ents, t, d)))
            && (forall t, e :: e != d || t !in tenants ==> Read(after, t, e) == Read(mirror, t, e))
  {
    hide Entitled;
  }

  /** A new link at the end and "yes" to every tenant ACTIVE for the product, unless the link
      is there already: then nothing. */
  lemma AssociateDoes(s: State, p: string, d: string, delivered: nat -> bool)
    requires AllDelivered(s, Associate(p, d, delivered))
    ensures var r := Apply(s, Associate(p, d, delivered));
            if Linked(s.links, p, d) then r == s
            else
              && r.links == s.links + [Link(s.nextId, p, d)] && r.nextId == s.nextId + 1 && r.ents == s.ents
              && (forall t :: Active(s.ents, t, p) ==> Read(r.mirror, t, d) == Access(true, true))
              && (forall t, e :: e != d || !Active(s.ents, t, p) ==> Read(r.mirror, t, e) == Read(s.mirror, t, e))
  {
    hide Active, Entitled, Pushed, ActiveTenants, Reached;
    ActiveTenantsRows(s.ents, p);
    ReachedAll(ActiveTenants(s.ents, p), delivered);
    var after := s.links + [Link(s.nextId, p, d)];
    PushedRows(s.mirror, Reached(ActiveTenants(s.ents, p), delivered), d, after, s.ents);
    LinkedGrows(s.links, Link(s.nextId, p, d), p, d);
    forall t | Active(s.ents, t, p) ensures Entitled(after, s.ents, t, d) {
      LinkEntitles(after, s.ents, t, p, d);
    }
    HasLinkIff(s.links, p, d);
  }

  lemma HasLinkIff(links: seq<Link>, p: string, d: string)
    ensures HasLink(links, p, d) <==> Linked(links, p, d)
  {
    if Linked(links, p, d) {
      var l :| l in links && l.productId == p && l.datasetId == d;
      var i :| 0 <= i < |links| && links[i] == l;
    }
    if HasLink(links, p, d) {
      var i :| 0 <= i < |links| && links[i].productId == p && links[i].datasetId == d;
      assert links[i] in links;
    }
  }

  /** The first link of the pair goes, and every tenant ACTIVE for the product gets the answer
      the remaining links give; nobody else's row changes. */
  lemma DissociateDoes(s: State, p: string, d: string, delivered: nat -> bool)
    requires AllDelivered(s, Dissociate(p, d, delivered))
    ensures var r := Apply(s, Dissociate(p, d, delivered));
            && r.ents == s.ents && r.nextId == s.nextId && FirstGone(s.links, r.links, p, d)
            && (forall t :: Active(s.ents, t, p) ==>
                  Read(r.mirror, t, d) == Grant(Entitled(r.links, s.ents, t, d)))
            && (forall t, e :: e != d || !Active(s.ents, t, p) ==> Read(r.mirror, t, e) == Read(s.mirror, t, e))
  {
    hide Active, Entitled, Pushed, ActiveTenants, Reached, WithoutFirst, FirstGone;
    ActiveTenantsRows(s.ents, p);
    ReachedAll(ActiveTenants(s.ents, p), delivered);
    var after := WithoutFirst(s.links, p, d);
    PushedRows(s.mirror, Reached(ActiveTenants(s.ents, p), delivered), d, after, s.ents);
    WithoutFirstIs(s.links, p, d);
  }

  predicate IsPair(l: Link, p: string, d: string) { l.productId == p && l.datasetId == d }

  /** `after` is `links` without its first link of the pair, or the same if there is none. */
  ghost predicate FirstGone(links: seq<Link>, after: seq<Link>, p: string, d: string) {
    (after == links && forall l :: l in links ==> !IsPair(l, p, d))
    || exists i :: 0 <= i < |links| && IsPair(links[i], p, d) && after == links[..i] + links[i + 1..]
                   && forall j :: 0 <= j < i ==> !IsPair(links[j], p, d)
  }

  lemma {:induction false} WithoutFirstAt(links: seq<Link>, p: string, d: string) returns (i: nat)
    ensures i <= |links| && forall j :: 0 <= j < i ==> !IsPair(links[j], p, d)
    ensures if i < |links| then IsPair(links[i], p, d) && WithoutFirst(links, p, d) == links[..i] + links[i + 1..]
            else WithoutFirst(links, p, d) == links
  {
    if links == [] || IsPair(links[0], p, d) {
      i := 0;
    } else {
      var rest := links[1..];
      var k := WithoutFirstAt(rest, p, d);
      i := k + 1;
      assert links[..i] == [links[0]] + rest[..k];
      forall j | 0 <= j < i ensures !IsPair(links[j], p, d) {
        assert j > 0 ==> links[j] == rest[j - 1];
      }
      if k < |rest| {
        assert links[i + 1..] == rest[k + 1..];
      }
    }
  }

  lemma WithoutFirstIs(links: seq<Link>, p: string, d: string)
    ensures FirstGone(links, WithoutFirst(links, p, d), p, d)
  {
    hide WithoutFirst, IsPair;
    var i := WithoutFirstAt(links, p, d);
  }

  /** The links of the dataset go, the others keep their order, and nothing else changes. */
  lemma RemoveDoes(s: State, d: string)
    ensures var r := Apply(s, RemoveDataset(d));
            && r.ents == s.ents && r.mirror == s.mirror && r.nextId == s.nextId
            && (forall l :: multiset(r.links)[l] == if l.datasetId == d then 0 else multiset(s.links)[l])
            && Within(r.links, s.links)
  {
    hide WithoutDataset, Within;
    WithoutDatasetWithin(s.links, d);
    forall l {
      WithoutDatasetCount(s.links, d, l);
    }
  }

  /** `part` comes of `whole` by leaving links out. */
  predicate Within(part: seq<Link>, whole: seq<Link>) {
    part == []
    || (whole != [] && if part[0] == whole[0] then Within(part[1..], whole[1..]) else Within(part, whole[1..]))
  }

  lemma {:induction false} WithoutDatasetCount(links: seq<Link>, d: string, l: Link)
    ensures multiset(WithoutDataset(links, d))[l] == if l.datasetId == d then 0 else multiset(links)[l]
  {
    if links != [] {
      WithoutDatasetCount(links[1..], d, l);
      assert links == [links[0]] + links[1..];
    }
  }

  lemma {:induction false} WithoutDatasetWithin(links: seq<Link>, d: string)
    ensures Within(WithoutDataset(links, d), links)
  {
    if links != [] {
      var rest := WithoutDataset(links[1..], d);
      WithoutDatasetWithin(links[1..], d);
      if links[0].datasetId == d {
        assert WithoutDataset(links, d) == rest;
        WithoutDatasetLinks(links[1..], d);
        if rest != [] {
          assert rest[0] in rest && rest[0] != links[0];
        }
      } else {
        assert ([links[0]] + rest)[1..] == rest;
      }
    }
  }

  // ------------------------------------------------------------ runs

  ghost function Run(s: State, ops: seq<Operation>): State
    decreases |ops|
  {
    if ops == [] then s else Run(Apply(s, ops[0]), ops[1..])
  }

  /** Every call of the run is delivered and harmless where it happens. */
  ghost predicate Untroubled(s: State, ops: seq<Operation>)
    decreases |ops|
  {
    ops == []
    || (AllDelivered(s, ops[0]) && Harmless(s, ops[0]) && Untroubled(Apply(s, ops[0]), ops[1..]))
  }

  /** Every run of delivered, harmless calls keeps the pushed table equal to the recompute. */
  lemma {:induction false} RunKeepsAgreement(s: State, ops: seq<Operation>)
    requires Agrees(s.mirror, s.links, s.ents) && Untroubled(s, ops)
    ensures Agrees(Run(s, ops).mirror, Run(s, ops).links, Run(s, ops).ents)
    decreases |ops|
  {
    hide Agrees, Apply, AllDelivered, Harmless;
    if ops != [] {
      CallAgreesIff(s, ops[0]);
      RunKeepsAgreement(Apply(s, ops[0]), ops[1..]);
    }
  }

  /** The catalogue lists every tenant with an entitlement and every linked dataset. */
  ghost predicate Catalogued(s: State, tenants: seq<string>, datasets: seq<string>) {
    && (forall e :: e in s.ents ==> e.tenantId in tenants)
    && (forall l :: l in s.links ==> l.datasetId in datasets)
  }

  /** The call names a listed dataset and a listed tenant. */
  predicate Listed(op: Operation, tenants: seq<string>, datasets: seq<string>) {
    && (op.Associate? || op.Dissociate? ==> op.dataset in datasets)
    && (op.GrantProduct? ==> op.tenant in tenants)
  }

  /** A row the catalogue does not list, left over from a tenant or dataset that went,
      still grants something. */
  ghost predicate StaleGrant(mirror: Mirror, pairs: set<(string, string)>) {
    exists k :: k in mirror && k !in pairs && mirror[k] != Grant(false)
  }

  lemma LinkingStaysListed(s: State, after: seq<Link>, p: string, d: string, delivered: nat -> bool,
                           tenants: seq<string>, datasets: seq<string>)
    requires Catalogued(s, tenants, datasets) && d in datasets
    ensures Linking(s, after, p, d, delivered).mirror - Pairs(tenants, datasets)
            == s.mirror - Pairs(tenants, datasets)
  {
    hide Entitled;
    var reached := Reached(ActiveTenants(s.ents, p), delivered);
    ReachedAreTargets(ActiveTenants(s.ents, p), delivered);
    ActiveTenantsRows(s.ents, p);
    forall t | t in reached ensures (t, d) in Pairs(tenants, datasets) {
      assert Active(s.ents, t, p);
    }
  }

  lemma GrantingStaysListed(s: State, after: seq<Entitlement>, t: string, p: string, b: bool,
                            delivered: nat -> bool, tenants: seq<string>, datasets: seq<string>)
    requires Catalogued(s, tenants, datasets) && t in tenants
    ensures Granting(s, after, t, p, b, delivered).mirror - Pairs(tenants, datasets)
            == s.mirror - Pairs(tenants, datasets)
  {
    var reached := Reached(DatasetsOf(s.links, p), delivered);
    ReachedAreTargets(DatasetsOf(s.links, p), delivered);
    DatasetsOfLinks(s.links, p);
    forall d | d in reached ensures (t, d) in Pairs(tenants, datasets) {
      assert Linked(s.links, p, d);
    }
  }

  /** A call on the catalogue writes listed rows only. */
  lemma CallStaysListed(s: State, op: Operation, tenants: seq<string>, datasets: seq<string>)
    requires Catalogued(s, tenants, datasets) && Listed(op, tenants, datasets)
    ensures Catalogued(Apply(s, op), tenants, datasets)
    ensures Apply(s, op).mirror - Pairs(tenants, datasets) == s.mirror - Pairs(tenants, datasets)
  {
    hide Pushed, FannedOut, Reached, Pairs, HasLink, ActiveTenants, DatasetsOf;
    match op
    case Associate(p, d, delivered) =>
      LinkingStaysListed(s, s.links + [Link(s.nextId, p, d)], p, d, delivered, tenants, datasets);
    case Dissociate(p, d, delivered) =>
      WithoutFirstLinks(s.links, p, d);
      LinkingStaysListed(s, WithoutFirst(s.links, p, d), p, d, delivered, tenants, datasets);
    case RemoveDataset(d) => WithoutDatasetLinks(s.links, d);
    case GrantProduct(t, p, delivered) =>
      var e := Entitlement(s.nextId, t, p, ACTIVE);
      GrantingStaysListed(s, s.ents + [e], t, p, true, delivered, tenants, datasets);
    case Revoke(t, id, delivered) => StatusStaysListed(s, t, id, REVOKED, delivered, tenants, datasets);
    case Reactivate(t, id, delivered) => StatusStaysListed(s, t, id, ACTIVE, delivered, tenants, datasets);
  }

  lemma StatusStaysListed(s: State, t: string, id: nat, status: Status, delivered: nat -> bool,
                          tenants: seq<string>, datasets: seq<string>)
    requires Catalogued(s, tenants, datasets)
    ensures Catalogued(SetStatus(s, t, id, status, delivered), tenants, datasets)
    ensures SetStatus(s, t, id, status, delivered).mirror - Pairs(tenants, datasets)
            == s.mirror - Pairs(tenants, datasets)
  {
    hide FannedOut, Reached, Pairs, DatasetsOf;
    var r := RowOf(s.ents, t, id);
    if r < |s.ents| {
      assert s.ents[r] in s.ents;
      var after := WithStatus(s.ents, t, id, status);
      GrantingStaysListed(s, after, t, s.ents[r].productId, status == ACTIVE, delivered, tenants, datasets);
    }
  }

  lemma {:induction false} RunStaysListed(s: State, ops: seq<Operation>, tenants: seq<string>, datasets: seq<string>)
    requires Catalogued(s, tenants, datasets) && forall op :: op in ops ==> Listed(op, tenants, datasets)
    ensures Catalogued(Run(s, ops), tenants, datasets)
    ensures Run(s, ops).mirror - Pairs(tenants, datasets) == s.mirror - Pairs(tenants, datasets)
    decreases |ops|
  {
    hide Catalogued, Apply, Pairs, Listed;
    if ops != [] {
      assert ops[0] in ops;
      CallStaysListed(s, ops[0], tenants, datasets);
      RunStaysListed(Apply(s, ops[0]), ops[1..], tenants, datasets);
    }
  }

  lemma SameStaleGrants(a: Mirror, b: Mirror, pairs: set<(string, string)>)
    requires a - pairs == b - pairs
    ensures StaleGrant(a, pairs) ==> StaleGrant(b, pairs)
  {
    if StaleGrant(a, pairs) {
      var k :| k in a && k !in pairs && a[k] != Grant(false);
      assert k in a - pairs;
      assert k in b - pairs && (a - pairs)[k] == (b - pairs)[k];
    }
  }

  lemma UnlistedIsNotEntitled(s: State, tenants: seq<string>, datasets: seq<string>, t: string, d: string)
    requires Catalogued(s, tenants, datasets) && (t, d) !in Pairs(tenants, datasets)
    ensures !Entitled(s.links, s.ents, t, d)
  {
    assert t !in tenants || d !in datasets;
  }

  /** Off those pairs the table says what is right. */
  ghost predicate RightOutside(mirror: Mirror, pairs: set<(string, string)>, links: seq<Link>,
                               ents: seq<Entitlement>) {
    forall t, d :: (t, d) !in pairs ==> Read(mirror, t, d) == Grant(Entitled(links, ents, t, d))
  }

  lemma OutsideIff(s: State, tenants: seq<string>, datasets: seq<string>)
    requires Catalogued(s, tenants, datasets)
    ensures RightOutside(s.mirror, Pairs(tenants, datasets), s.links, s.ents)
            <==> !StaleGrant(s.mirror, Pairs(tenants, datasets))
  {
    hide Entitled, Pairs, Catalogued;
    var pairs := Pairs(tenants, datasets);
    forall t, d | (t, d) !in pairs ensures !Entitled(s.links, s.ents, t, d) {
      UnlistedIsNotEntitled(s, tenants, datasets, t, d);
    }
    if StaleGrant(s.mirror, pairs) {
      var k :| k in s.mirror && k !in pairs && s.mirror[k] != Grant(false);
      assert k == (k.0, k.1) && Read(s.mirror, k.0, k.1) != Grant(Entitled(s.links, s.ents, k.0, k.1));
    }
  }

  /** A full sync makes the table right if and only if it was right off the catalogue, which
      the script never writes; where the catalogue lists every link and grant, if and only if
      no row off it still grants anything. */
  lemma SyncAgreesIff(s: State, mirror: Mirror, tenants: seq<string>, datasets: seq<string>)
    requires Refreshed(mirror, s.mirror, Pairs(tenants, datasets), s.links, s.ents)
    ensures Agrees(mirror, s.links, s.ents)
            <==> RightOutside(s.mirror, Pairs(tenants, datasets), s.links, s.ents)
    ensures Catalogued(s, tenants, datasets) ==>
              (Agrees(mirror, s.links, s.ents) <==> !StaleGrant(s.mirror, Pairs(tenants, datasets)))
  {
    hide Entitled, Pairs, Catalogued, StaleGrant;
    var pairs := Pairs(tenants, datasets);
    forall t, d
      ensures Read(mirror, t, d)
              == if (t, d) in pairs then Grant(Entitled(s.links, s.ents, t, d)) else Read(s.mirror, t, d)
    {
      assert (t, d) in mirror <==> (t, d) in s.mirror || (t, d) in pairs;
    }
    if Catalogued(s, tenants, datasets) {
      OutsideIff(s, tenants, datasets);
    }
  }

  /** After any run, whichever pushes were dropped and whatever the calls did to the table, one
      full sync makes it right if and only if it is right off the catalogue; for a run over a
      catalogue that lists every link and grant, if and only if no row off it granted anything
      to begin with. From then on it stays right over every run of delivered, harmless calls. */
  lemma SyncRestoresIff(s: State, ops: seq<Operation>, mirror: Mirror, later: seq<Operation>,
                        tenants: seq<string>, datasets: seq<string>)
    requires Refreshed(mirror, Run(s, ops).mirror, Pairs(tenants, datasets), Run(s, ops).links, Run(s, ops).ents)
    ensures var r := Run(s, ops);
            Agrees(mirror, r.links, r.ents) <==> RightOutside(r.mirror, Pairs(tenants, datasets), r.links, r.ents)
    ensures Catalogued(s, tenants, datasets) && (forall op :: op in ops ==> Listed(op, tenants, datasets)) ==>
              (Agrees(mirror, Run(s, ops).links, Run(s, ops).ents)
               <==> !StaleGrant(s.mirror, Pairs(tenants, datasets)))
    ensures var synced := Run(s, ops).(mirror := mirror);
            Agrees(mirror, synced.links, synced.ents) && Untroubled(synced, later) ==>
              var end := Run(synced, later); Agrees(end.mirror, end.links, end.ents)
  {
    hide Run, Apply, AllDelivered, Catalogued, Agrees, Pairs, StaleGrant, Untroubled, Listed, RightOutside;
    var r := Run(s, ops);
    SyncAgreesIff(r, mirror, tenants, datasets);
    if Catalogued(s, tenants, datasets) && forall op :: op in ops ==> Listed(op, tenants, datasets) {
      RunStaysListed(s, ops, tenants, datasets);
      SameStaleGrants(s.mirror, r.mirror, Pairs(tenants, datasets));
      SameStaleGrants(r.mirror, s.mirror, Pairs(tenants, datasets));
    }
    if Agrees(mirror, r.links, r.ents) && Untroubled(r.(mirror := mirror), later) {
      RunKeepsAgreement(r.(mirror := mirror), later);
    }
  }

  /** Once a dataset has left the catalogue, full syncs make the table right if and only
      if nobody was entitled to it when it was removed. */
  lemma SyncAfterRemovalIff(s: State, d: string, mirror: Mirror, tenants: seq<string>, datasets: seq<string>)
    requires Agrees(s.mirror, s.links, s.ents) && d !in datasets
    requires var r := Apply(s, RemoveDataset(d));
             Refreshed(mirror, r.mirror, Pairs(tenants, datasets), r.links, r.ents)
    ensures var r := Apply(s, RemoveDataset(d));
            Agrees(mirror, r.links, r.ents) <==> forall t :: !Entitled(s.links, s.ents, t, d)
  {
    var r, pairs := Apply(s, RemoveDataset(d)), Pairs(tenants, datasets);
    SyncAgreesIff(r, mirror, tenants, datasets);
    RemovalEntitles(s, d);
    hide Entitled, Refreshed;
    forall t ensures (t, d) !in pairs && Read(s.mirror, t, d) == Grant(Entitled(s.links, s.ents, t, d)) {
    }
    hide Pairs;
    if RightOutside(r.mirror, pairs, r.links, r.ents) {
      forall t ensures !Entitled(s.links, s.ents, t, d) {
        assert Read(r.mirror, t, d) == Grant(Entitled(r.links, r.ents, t, d));
      }
    }
  }

  // ------------------------------------------------------------ the harm is real

  const EMPTY := State([], [], map[], 0)
  const TWO_LINKS := [Link(0, "p", "d"), Link(1, "q", "d")]
  const ONE_GRANT := [Entitlement(2, "t", "p", ACTIVE)]
  const TWO_GRANTS := [Entitlement(2, "t", "p", ACTIVE), Entitlement(3, "t", "q", ACTIVE)]
  const ONE_LEFT := [Entitlement(2, "t", "p", REVOKED), Entitlement(3, "t", "q", ACTIVE)]

  function Always(): nat -> bool { (i: nat) => true }

  lemma LinkTwice()
    ensures Run(EMPTY, [Associate("p", "d", Always()), Associate("q", "d", Always())])
            == State(TWO_LINKS, [], map[], 2)
  {
    hide Entitled;
    var one := State([Link(0, "p", "d")], [], map[], 1);
    assert Apply(EMPTY, Associate("p", "d", Always())) == one;
    assert Apply(one, Associate("q", "d", Always())) == State(TWO_LINKS, [], map[], 2);
  }

  lemma OnlyDataset(product: string)
    requires product == "p" || product == "q"
    ensures Reached(DatasetsOf(TWO_LINKS, product), Always()) == {"d"}
  {
    assert DatasetsOf(TWO_LINKS[1..], product) == if product == "q" then ["d"] else [];
    assert DatasetsOf(TWO_LINKS, product) == ["d"];
    assert Reached([], Always()) == {};
  }

  lemma GrantTwice()
    ensures var s := State(TWO_LINKS, [], map[], 2);
            Run(s, [GrantProduct("t", "p", Always()), GrantProduct("t", "q", Always())])
            == State(TWO_LINKS, TWO_GRANTS, map[("t", "d") := Grant(true)], 4)
  {
    hide Reached, DatasetsOf;
    OnlyDataset("p");
    OnlyDataset("q");
    var one := State(TWO_LINKS, ONE_GRANT, map[("t", "d") := Grant(true)], 3);
    assert Apply(State(TWO_LINKS, [], map[], 2), GrantProduct("t", "p", Always())) == one;
    assert Apply(one, GrantProduct("t", "q", Always()))
        == State(TWO_LINKS, TWO_GRANTS, map[("t", "d") := Grant(true)], 4);
  }

  lemma RevokeOne()
    ensures var s := State(TWO_LINKS, TWO_GRANTS, map[("t", "d") := Grant(true)], 4);
            Apply(s, Revoke("t", 2, Always())) == State(TWO_LINKS, ONE_LEFT, map[("t", "d") := Grant(false)], 4)
  {
    hide Reached, DatasetsOf;
    OnlyDataset("p");
  }

  lemma {:induction false} RunJoin(s: State, a: seq<Operation>, b: seq<Operation>)
    ensures Run(s, a + b) == Run(Run(s, a), b)
    decreases |a|
  {
    hide Apply;
    if a == [] {
      assert a + b == b;
    } else {
      assert (a + b)[0] == a[0] && (a + b)[1..] == a[1..] + b;
      RunJoin(Apply(s, a[0]), a[1..], b);
    }
  }

  /** From an empty portal, every push delivered: a tenant with two grants covering one
      dataset loses one of them and is cut off from the dataset. */
  lemma RevokingCutsOff() returns (ops: seq<Operation>)
    ensures var r := Run(EMPTY, ops);
            Entitled(r.links, r.ents, "t", "d") && Read(r.mirror, "t", "d") == Grant(false)
  {
    var link := [Associate("p", "d", Always()), Associate("q", "d", Always())];
    var grant := [GrantProduct("t", "p", Always()), GrantProduct("t", "q", Always())];
    var revoke := [Revoke("t", 2, Always())];
    ops := link + (grant + revoke);
    LinkTwice();
    GrantTwice();
    RevokeOne();
    var granted := State(TWO_LINKS, TWO_GRANTS, map[("t", "d") := Grant(true)], 4);
    assert Run(granted, revoke) == Apply(granted, revoke[0]);
    hide Run, Apply;
    RunJoin(EMPTY, link, grant + revoke);
    RunJoin(State(TWO_LINKS, [], map[], 2), grant, revoke);
    assert TWO_LINKS[1] in TWO_LINKS && ONE_LEFT[1] in ONE_LEFT && IsGrant(ONE_LEFT[1], "t", "q");
    LinkEntitles(TWO_LINKS, ONE_LEFT, "t", "q", "d");
  }
}
