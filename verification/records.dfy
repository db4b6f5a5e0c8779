/** The records the stores keep, with the fields that the protocols read or write. */
module Records {
  import opened Wrappers

  type Id = string

  // An instant, in nanoseconds.
  type Time = int

  const HOUR: Time := 3_600_000_000_000

  // A finished item is parked this far beyond its own expiry.
  const DONE_PARKING: Time := 24 * HOUR

  datatype JobStatus =
    | JobQueued
    | JobRunning
    | JobCompleted
    | JobCompletedWithErrors
    | JobFailed
    | JobCancelled

  datatype ItemStatus =
    | ItemPending
    | ItemRunning
    | ItemFound
    | ItemNotFound
    | ItemSourceError

  datatype Failure = Missing | NotFound | Conflict | NotRunning | Unreadable(id: Id)

  datatype Job = Job(
    id: Id,
    status: JobStatus,
    total: nat,
    processed: nat,
    currentCard: string,
    found: nat,
    notFound: nat,
    errors: nat,
    createdAt: Time,
    startedAt: Option<Time>,
    updatedAt: Time,
    finishedAt: Option<Time>)

  datatype Search = Search(job: Job, itemIDs: seq<Id>, expiresAt: Time)

  datatype Item = Item(
    id: Id,
    searchID: Id,
    position: nat,
    sequence: nat,
    originalName: string,
    status: ItemStatus,
    attempts: nat,
    source: string,
    errorCode: string,
    errorMessage: string,
    leaseOwner: string,
    leaseUntil: Option<Time>)

  // An item beside the moment it becomes claimable and the moment it expires.
  datatype StoredItem = StoredItem(item: Item, availableAt: Time, expiresAt: Time, damaged: bool)

  datatype ProductKind = KindUnset | KindSingle | KindSealed

  datatype Offer = Offer(
    id: Id,
    cardName: string,
    store: string,
    priceAmount: string,
    priceCurrency: string,
    url: string,
    variantID: string,
    edition: string,
    kind: ProductKind,
    cardKey: string,
    source: string,
    stockStatus: string,
    suspicious: bool,
    suspiciousReason: string)

  datatype Entry = Entry(offers: seq<Offer>, expiresAt: Time)

  // What one action and key answered before, until its expiry.
  datatype Request = Request(hash: string, resourceID: Id, expiresAt: Time)

  /** A record lapses strictly after its expiry. */
  predicate Lapsed(now: Time, expiresAt: Time) {
    expiresAt < now
  }

  /** A status a worker completes an item with. */
  predicate Finished(status: ItemStatus) {
    status.ItemFound? || status.ItemNotFound? || status.ItemSourceError?
  }

  /** A status no search leaves. */
  predicate Terminal(status: JobStatus) {
    status.JobCompleted? || status.JobCompletedWithErrors? || status.JobCancelled?
  }
}
