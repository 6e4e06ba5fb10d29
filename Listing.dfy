/**
 * The pagination walk of `ScrapJobs` (Service/GhanaJobsService.cs): fetch
 * listing pages 1, 2, 3, ... and turn every item node into a `Job`, until
 * the document in hand has no active pager item.
 *
 * HTTP and HTML parsing are abstracted: `fetch(n)` is the response to the
 * request for page `n`, and a parsed page is a `Document` holding its item
 * nodes (the texts their sub-queries found) and whether it has the marker.
 */
module Listing {
  import opened Wrappers
  import opened JobModel
  import opened JobIdentifier

  /**
   * One node of class `job-description-wrapper`, with the trimmed inner text
   * of each sub-query (None where the query found nothing) and its
   * `data-href` attribute (None where the attribute is absent).
   */
  datatype ListingNode = ListingNode(
    title: Option<string>,
    recruiter: Option<string>,
    description: Option<string>,
    region: Option<string>,
    dataHref: Option<string>)

  /** A loaded HTML document: its item nodes in document order, and whether it has `li.pager-item active`. */
  datatype Document = Document(nodes: seq<ListingNode>, hasActivePager: bool)

  /** The document as freshly constructed, before anything was loaded into it. */
  const EmptyDocument: Document := Document([], false)

  /** The outcome of the request for one listing page. */
  datatype Response = Success(document: Document) | ErrorStatus(statusCode: int)

  /** `GetAttributeValue("data-href", "")`. */
  function HrefOf(node: ListingNode): string {
    node.dataHref.GetOr("")
  }

  /** The `Job` built for one item node on the day `today`. */
  function JobFromNode(node: ListingNode, today: Date): (job: Job)
    ensures job.jobId == Some(DeriveJobId(HrefOf(node)))
    ensures job.source == Some(HrefOf(node))
    ensures job.title == node.title && job.employer == node.recruiter
    ensures job.description == node.description && job.location == node.region
    ensures job.industry == None && job.expiryDate == None
    ensures job.id == 0 && job.scrappedDate == today
  {
    var href := HrefOf(node);
    Job(0, Some(DeriveJobId(href)), node.title, node.recruiter, Some(href),
        node.description, node.region, None, None, today)
  }

  /** A built job's id is the last piece of its `data-href` split on dashes. */
  lemma JobIdIsLastPieceOfHref(node: ListingNode, today: Date)
    ensures var parts := SplitOnDash(HrefOf(node));
      JobFromNode(node, today).jobId == Some(parts[|parts| - 1])
  {
    DeriveJobIdIsLastPiece(HrefOf(node));
  }

  /** An item without a `data-href` attribute gets the job id "". */
  lemma MissingHrefGivesEmptyId(node: ListingNode, today: Date)
    requires node.dataHref == None
    ensures JobFromNode(node, today).jobId == Some("")
  {
    assert HrefOf(node) == "";
  }

  /** One job per node, in node order. */
  function JobsOfNodes(nodes: seq<ListingNode>, today: Date): (jobs: seq<Job>)
    ensures |jobs| == |nodes|
    ensures forall k :: 0 <= k < |nodes| ==> jobs[k] == JobFromNode(nodes[k], today)
  {
    if nodes == [] then [] else [JobFromNode(nodes[0], today)] + JobsOfNodes(nodes[1..], today)
  }

  /** What one fetched page contributes: its nodes' jobs on success, nothing on an error status. */
  function PageJobs(response: Response, today: Date): seq<Job> {
    match response
    case Success(document) => JobsOfNodes(document.nodes, today)
    case ErrorStatus(_) => []
  }

  /**
   * The document held after pages 1..p were requested: the one document
   * object is reloaded only by a successful fetch.
   */
  function Loaded(fetch: nat -> Response, p: nat): Document {
    if p == 0 then EmptyDocument
    else match fetch(p)
      case Success(document) => document
      case ErrorStatus(_) => Loaded(fetch, p - 1)
  }

  /** The jobs collected from pages 1..p, in page order. */
  function Collected(fetch: nat -> Response, today: Date, p: nat): seq<Job> {
    if p == 0 then [] else Collected(fetch, today, p - 1) + PageJobs(fetch(p), today)
  }

  /**
   * The walk ends after page `last`: the document held after page `last`
   * lacks the marker and the one held after every earlier page has it.
   */
  ghost predicate WalkStopsAt(fetch: nat -> Response, last: nat) {
    && last >= 1
    && !Loaded(fetch, last).hasActivePager
    && forall p :: 1 <= p < last ==> Loaded(fetch, p).hasActivePager
  }

  /** The pages 1..n in order. */
  function PagesUpTo(n: nat): (pages: seq<nat>)
    ensures |pages| == n
    ensures forall k :: 0 <= k < n ==> pages[k] == k + 1
  {
    if n == 0 then [] else PagesUpTo(n - 1) + [n]
  }

  /**
   * The walk. `requested` records the page numbers requested, in order;
   * `last` names the page after which the source's `while (true)` loop
   * breaks (a site that never drops the marker keeps the source looping).
   */
  method ScrapJobs(fetch: nat -> Response, today: Date, ghost last: nat)
    returns (jobList: seq<Job>, requested: seq<nat>)
    requires WalkStopsAt(fetch, last)
    ensures requested == PagesUpTo(last)
    ensures jobList == Collected(fetch, today, last)
  {
    jobList := [];
    requested := [];
    var htmlDocument := EmptyDocument;
    var currentPage: nat := 1;
    while true
      invariant 1 <= currentPage <= last
      invariant htmlDocument == Loaded(fetch, currentPage - 1)
      invariant jobList == Collected(fetch, today, currentPage - 1)
      invariant requested == PagesUpTo(currentPage - 1)
      decreases last - currentPage
    {
      requested := requested + [currentPage];
      assert requested == PagesUpTo(currentPage);
      var response := fetch(currentPage);
      assert Collected(fetch, today, currentPage) == jobList + PageJobs(response, today);
      if response.Success? {
        htmlDocument := response.document;
        jobList := AddNodeJobs(jobList, htmlDocument.nodes, today);
      }
      assert jobList == Collected(fetch, today, currentPage);
      assert htmlDocument == Loaded(fetch, currentPage);
      if !htmlDocument.hasActivePager {
        assert currentPage == last;
        break;
      }
      assert currentPage != last;
      currentPage := currentPage + 1;
    }
  }

  /** The `foreach` over a page's item nodes: one job per node is added to `jobList`, in node order. */
  method AddNodeJobs(jobList: seq<Job>, nodes: seq<ListingNode>, today: Date) returns (result: seq<Job>)
    ensures result == jobList + JobsOfNodes(nodes, today)
  {
    result := jobList;
    for i := 0 to |nodes|
      invariant |result| == |jobList| + i
      invariant result[..|jobList|] == jobList
      invariant forall k :: 0 <= k < i ==> result[|jobList| + k] == JobFromNode(nodes[k], today)
    {
      result := result + [JobFromNode(nodes[i], today)];
    }
  }

  /** `Loaded` agrees with "the last page up to p that loaded, or the empty document". */
  lemma {:induction false} LoadedIsLastSuccess(fetch: nat -> Response, p: nat, q: nat)
    requires 1 <= q <= p && fetch(q).Success?
    requires forall r :: q < r <= p ==> fetch(r).ErrorStatus?
    ensures Loaded(fetch, p) == fetch(q).document
  {
    if p > q {
      LoadedIsLastSuccess(fetch, p - 1, q);
    }
  }

  /** With no successful fetch among pages 1..p, the document is still the empty one. */
  lemma {:induction false} LoadedBeforeAnySuccess(fetch: nat -> Response, p: nat)
    requires forall r :: 1 <= r <= p ==> fetch(r).ErrorStatus?
    ensures Loaded(fetch, p) == EmptyDocument
  {
    if p > 0 {
      LoadedBeforeAnySuccess(fetch, p - 1);
    }
  }

  /** A failed first page leaves the document empty, so the walk ends after page 1. */
  lemma FirstPageFailureStops(fetch: nat -> Response)
    requires fetch(1).ErrorStatus?
    ensures WalkStopsAt(fetch, 1)
  {
    assert Loaded(fetch, 1) == Loaded(fetch, 0);
  }

  /** A failed fetch after a page with the marker does not end the walk. */
  lemma FailureAfterMarkerContinues(fetch: nat -> Response, p: nat)
    requires p >= 2 && fetch(p).ErrorStatus? && Loaded(fetch, p - 1).hasActivePager
    ensures Loaded(fetch, p).hasActivePager && !WalkStopsAt(fetch, p)
  {
  }

  /** The page at which the walk ends is unique. */
  lemma WalkStopsAtUnique(fetch: nat -> Response, a: nat, b: nat)
    requires WalkStopsAt(fetch, a) && WalkStopsAt(fetch, b)
    ensures a == b
  {
  }

  /** Later pages only add to the end: the jobs of pages 1..q are a prefix of those of pages 1..p. */
  lemma {:induction false} CollectedGrowsAtEnd(fetch: nat -> Response, today: Date, q: nat, p: nat)
    requires q <= p
    ensures Collected(fetch, today, q) <= Collected(fetch, today, p)
  {
    if q < p {
      CollectedGrowsAtEnd(fetch, today, q, p - 1);
    }
  }

  /** The jobs page p adds are one per node of the page, in node order, or none when its fetch failed. */
  lemma CollectedPage(fetch: nat -> Response, today: Date, p: nat, k: nat)
    requires p >= 1
    ensures |Collected(fetch, today, p)| == |Collected(fetch, today, p - 1)| + |PageJobs(fetch(p), today)|
    ensures fetch(p).Success? && k < |fetch(p).document.nodes| ==>
      Collected(fetch, today, p)[|Collected(fetch, today, p - 1)| + k] == JobFromNode(fetch(p).document.nodes[k], today)
    ensures fetch(p).ErrorStatus? ==> Collected(fetch, today, p) == Collected(fetch, today, p - 1)
  {
    var before := Collected(fetch, today, p - 1);
    var added := PageJobs(fetch(p), today);
    assert Collected(fetch, today, p) == before + added;
    if fetch(p).Success? && k < |fetch(p).document.nodes| {
      assert added[k] == JobFromNode(fetch(p).document.nodes[k], today);
    } else if fetch(p).ErrorStatus? {
      assert added == [];
    }
  }

  /** The length of the result is the number of nodes on the pages that loaded. */
  lemma {:induction false} CollectedLength(fetch: nat -> Response, today: Date, p: nat)
    ensures |Collected(fetch, today, p)| == NodeCount(fetch, p)
  {
    if p > 0 {
      CollectedLength(fetch, today, p - 1);
    }
  }

  /** The number of item nodes on pages 1..p that were fetched successfully. */
  function NodeCount(fetch: nat -> Response, p: nat): nat {
    if p == 0 then 0
    else NodeCount(fetch, p - 1) + (if fetch(p).Success? then |fetch(p).document.nodes| else 0)
  }

  /** Three pages of which the third lacks the marker: the walk requests exactly pages 1, 2 and 3. */
  lemma ThreePageWalk(n1: ListingNode, n2: ListingNode, n3: ListingNode)
    ensures var fetch := (p: nat) =>
      if p == 1 then Success(Document([n1], true))
      else if p == 2 then Success(Document([n2], true))
      else Success(Document([n3], false));
      WalkStopsAt(fetch, 3) && PagesUpTo(3) == [1, 2, 3] &&
      Collected(fetch, 7, 3) == [JobFromNode(n1, 7), JobFromNode(n2, 7), JobFromNode(n3, 7)]
  {
    var fetch := (p: nat) =>
      if p == 1 then Success(Document([n1], true))
      else if p == 2 then Success(Document([n2], true))
      else Success(Document([n3], false));
    assert Loaded(fetch, 1).hasActivePager && Loaded(fetch, 2).hasActivePager;
    assert PagesUpTo(3) == PagesUpTo(2) + [3];
    assert Collected(fetch, 7, 1) == [JobFromNode(n1, 7)];
  }
}
