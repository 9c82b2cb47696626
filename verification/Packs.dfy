/** Rows of the Collection table that the repost protocol and the catalog rules read and write. */
module Packs {
  import opened Common

  type PackId = string
  type ProductId = string

  datatype Kind = General | Regular | Catalog

  datatype Status = Draft | Ready | Published | Archived

  datatype Origin = Manual | Automatic

  datatype Audience = Followers | Selected | Everyone | Connections

  datatype Pack = Pack(
    company: CompanyId,
    kind: Kind,
    status: Status,
    audience: Audience,
    audienceIds: seq<CompanyId>,
    allowForward: bool,
    exploreAt: Option<Instant>,
    updatedAt: Instant,
    createdAt: Instant,
    source: Option<PackId>,
    root: Option<PackId>,
    origin: Option<Origin>,
    syncedAt: Option<Instant>,
    syncedIds: seq<ProductId>)

  type PackTable = map<PackId, Pack>
}
