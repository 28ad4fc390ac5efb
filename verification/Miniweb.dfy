/** The web server with its backend in a domain and its CGI programs in domains of their own. A
    domain finds the regions shared with it by their places: sharing appends one to the domain's
    stack, and a pop drops the last n. */
module Miniweb {
  import opened Base
  import opened Numerals
  import opened PageReply

  datatype Region = Other | Metadata | CgiSuccess | CgiFail | Socket | Response | Html

  /** html_fd_status */
  datatype Status = Undefined | NotFound | Found | ByCgi

  datatype Request = Get(path: string) | PostCgi(success: bool) | PostBad

  /** Spilled is a reply longer than its region: the region holds its head, and the rest is written, and
      read back, past the end of the region. */
  datatype Answer = Text(text: string) | Spilled(head: string) | CgiText(success: bool) | Blank

  /** A connection, and what the worker's calls to open and read bring: the page asked for, and
      the page for errors, if they can be opened; of a file the first 4096 bytes are read. */
  datatype Visit = Visit(fd: nat, request: Request, page: Option<string>, errorPage: Option<string>)

  predicate VisitOk(v: Visit) {
    && (v.page.Some? ==> |v.page.value| <= REGION_SIZE) && (v.errorPage.Some? ==> |v.errorPage.value| <= REGION_SIZE)
  }

  /** The error page is wanted and cannot be opened. */
  predicate Unanswered(v: Visit) {
    v.errorPage.None? && (v.request.PostBad? || (v.request.Get? && v.page.None?))
  }

  function AnswerTo(v: Visit): Answer
    requires !Unanswered(v)
  {
    match v.request
    case Get(_) => if v.page.Some? then PageAnswer(true, v.page.value) else Text(v.errorPage.value)
    case PostCgi(success) => CgiText(success)
    case PostBad => Text(v.errorPage.value)
  }

  /** A page found goes out behind a header, the page for errors as it is. */
  function PageAnswer(found: bool, html: string): Answer {
    if !found then Text(html)
    else if |Reply(html)| <= REGION_SIZE then Text(Reply(html))
    else Spilled(Reply(html)[..REGION_SIZE])
  }

  /** A page found is answered whole, the client then finding it in the answer, exactly up to 4016 bytes. */
  lemma WholeIff(html: string)
    requires |html| <= REGION_SIZE
    ensures var a := PageAnswer(true, html);
      (a.Text? <==> |html| <= 4016) && (a.Text? ==> Body(a.text) == html) && (a.Spilled? ==> |a.head| == REGION_SIZE && a.head <= Reply(html))
  {
    FitsIff(|html|);
    ReplyRoundTrip(html);
    hide Header;
  }

  /** What a client is to get, whatever the server does for it: a page found behind a header that says so and gives its
      length, as much of both as the region holds; the page for errors as it is; the reply of the CGI domain asked for. */
  ghost predicate Meets(v: Visit, a: Answer) {
    match v.request
    case Get(_) =>
      if v.page.Some? then PageMeets(v.page.value, a)
      else v.errorPage.Some? && a == Text(v.errorPage.value)
    case PostCgi(success) => a == CgiText(success)
    case PostBad => v.errorPage.Some? && a == Text(v.errorPage.value)
  }

  ghost predicate PageMeets(page: string, a: Answer) {
    if |page| <= 4016 then
      a.Text? && Body(a.text) == page && STATUS + OTHER + LENGTH <= a.text && Value(Line(a.text[|STATUS + OTHER + LENGTH|..])) == |page|
    else
      a.Spilled? && |a.head| == REGION_SIZE && exists rest: string ::
        var text := a.head + rest;
        Body(text) == page && STATUS + OTHER + LENGTH <= text && Value(Line(text[|STATUS + OTHER + LENGTH|..])) == |page|
  }

  lemma PageAnswerMeets(page: string)
    requires |page| <= REGION_SIZE
    ensures PageMeets(page, PageAnswer(true, page))
  {
    FitsIff(|page|);
    ReplyRoundTrip(page);
    hide Header, Body, Value, Line, STATUS, OTHER, LENGTH;
    if |page| > 4016 {
      assert Reply(page) == Reply(page)[..REGION_SIZE] + Reply(page)[REGION_SIZE..];
    }
  }

  /** There is something to answer with. */
  predicate Answerable(v: Visit) { v.request.PostCgi? || (v.request.Get? && v.page.Some?) || v.errorPage.Some? }

  lemma AnswerMeets(v: Visit)
    requires VisitOk(v)
    ensures Answerable(v) <==> !Unanswered(v)
    ensures Answerable(v) ==> Meets(v, AnswerTo(v))
  {
    hide PageMeets, PageAnswer;
    if v.request.Get? && v.page.Some? {
      PageAnswerMeets(v.page.value);
    }
  }

  /** Memory that the programs share, by region, and the backend's stack. */
  class Memory {
    var status: Status
    var path: string
    var request: Request
    var html: string
    var response: Answer
    var stack: seq<Region>

    constructor (stack: seq<Region>)
      ensures this.stack == stack
    {
      status, path, request, html, response := Undefined, "", PostBad, "", Blank;
      this.stack := stack;
    }
  }

  /** A CGI domain: `regions` and region_n. */
  class CgiDomain {
    const success: bool
    const regions: array<Region>
    var regionN: nat

    constructor (success: bool)
      ensures this.success == success && regionN == 0 && regions.Length == 4 && fresh(regions)
    {
      this.success := success;
      regions := new Region[4](_ => Other);
      regionN := 0;
    }

    /** Only the metadata region is there between two calls. */
    ghost predicate Ready()
      reads this, regions
    {
      regions.Length == 4 && regionN == 1 && regions[0] == Metadata
    }

    /** dpi_share_region */
    method ShareRegion(r: Region)
      requires regionN < regions.Length
      modifies this, regions
      ensures regionN == old(regionN) + 1 && regions[old(regionN)] == r
      ensures forall i :: 0 <= i < old(regionN) ==> regions[i] == old(regions[i])
    {
      regions[regionN] := r;
      regionN := regionN + 1;
    }

    /** dpi_call, given the regions where register_success looks for them. */
    method Call(mem: Memory)
      requires regions.Length == 4 && regionN == 3 && regions[0] == Metadata && regions[1] == Socket && regions[2] == Response
      modifies this, mem`response
      ensures Ready() && mem.response == CgiText(success)
    {
      mem.response := CgiText(success);
      regionN := regionN - 2;
    }
  }

  /** m pairs left behind. */
  function Pairs(m: nat): (r: seq<Region>)
    ensures |r| == 2 * m
  {
    if m == 0 then [] else Pairs(m - 1) + [Socket, Response]
  }

  lemma {:induction false} FirstPair(m: nat)
    requires m > 0
    ensures Pairs(m)[0] == Socket && Pairs(m)[1] == Response
  {
    if m > 1 {
      FirstPair(m - 1);
    }
  }

  /** The stack below the pairs: k regions of the domain's own, and the three shared by `main`. */
  function Bottom(k: nat): seq<Region> { seq(k, _ => Other) + [Metadata, CgiSuccess, CgiFail] }

  /** Socket and response are where the ids fixed at the first entry say, html is last, and the
      pops take away what the request has put there. */
  lemma Places(k: nat, m: nat, stack: seq<Region>)
    requires Bottom(k) + Pairs(m + 1) <= stack
    ensures |stack| >= k + 5 && stack[k + 3] == Socket && stack[k + 4] == Response
    ensures m == 0 ==> Pairs(m + 1) == [Socket, Response]
    ensures stack == Bottom(k) + Pairs(m + 1) + [] ==> stack[..|stack| - 2] == Bottom(k) + Pairs(m) && stack == Bottom(k) + Pairs(m + 1)
    ensures stack == Bottom(k) + Pairs(m + 1) + [Html] ==> stack[..|stack| - 3] == Bottom(k) + Pairs(m) && stack[|stack| - 1] == Html
  {
    FirstPair(m + 1);
    assert stack[k + 3] == Pairs(m + 1)[0] && stack[k + 4] == Pairs(m + 1)[1];
    assert Pairs(m + 1) == Pairs(m) + [Socket, Response];
  }

  class Backend {
    const mem: Memory
    const cgiSuccess: CgiDomain
    const cgiFail: CgiDomain
    /** Whether `main` has got to its loop, and then the ids it has fixed. */
    var started: bool
    var metadataRegion: nat
    var socketFdRegion: nat
    var responseRegion: nat

    constructor (mem: Memory)
      ensures this.mem == mem && !started && Domains() && fresh(cgiSuccess) && fresh(cgiFail)
      ensures fresh(cgiSuccess.regions) && fresh(cgiFail.regions) && cgiSuccess.regionN == 0 && cgiFail.regionN == 0
    {
      this.mem := mem;
      started, metadataRegion, socketFdRegion, responseRegion := false, 0, 0, 0;
      cgiSuccess := new CgiDomain(true);
      cgiFail := new CgiDomain(false);
    }

    /** The two CGI domains are apart. */
    ghost predicate Domains() {
      && cgiSuccess.success && !cgiFail.success && cgiSuccess != cgiFail && cgiSuccess.regions != cgiFail.regions
      && cgiSuccess.regions.Length == 4 == cgiFail.regions.Length
    }

    /** With k regions at the bottom of the stack. */
    ghost predicate Valid(k: nat)
      reads this, cgiSuccess, cgiFail, cgiSuccess.regions, cgiFail.regions
    {
      && Domains()
      && (started ==> metadataRegion == k && socketFdRegion == k + 3 && responseRegion == k + 4)
      && (started ==> cgiSuccess.Ready() && cgiFail.Ready())
      && (!started ==> cgiSuccess.regionN == 0 && cgiFail.regionN == 0)
    }

    ghost function Footprint(): set<object> {
      {this, cgiSuccess, cgiFail, cgiSuccess.regions, cgiFail.regions}
    }

    /** The part of `main` before its loop: the ids are counted back from the end of the stack. */
    method Start(ghost k: nat)
      requires Valid(k) && !started && mem.stack == Bottom(k) + [Socket, Response]
      modifies Footprint()
      ensures Valid(k) && started
    {
      var regionN := |mem.stack|;
      responseRegion := regionN - 1;
      socketFdRegion := responseRegion - 1;
      var cgiFailRegion := socketFdRegion - 1;
      var cgiSuccessRegion := cgiFailRegion - 1;
      metadataRegion := cgiSuccessRegion - 1;
      assert mem.stack[cgiSuccessRegion] == CgiSuccess && mem.stack[cgiFailRegion] == CgiFail;
      cgiSuccess.ShareRegion(mem.stack[metadataRegion]);
      cgiFail.ShareRegion(mem.stack[metadataRegion]);
      started := true;
    }

    /** request_handle_cgi */
    method HandleCgi(success: bool, ghost k: nat)
      requires Valid(k) && started && responseRegion < |mem.stack| && mem !in Footprint()
      requires mem.stack[socketFdRegion] == Socket && mem.stack[responseRegion] == Response
      modifies Footprint(), mem`status, mem`response, mem`stack
      ensures Valid(k) && started
      ensures mem.status == ByCgi && mem.response == CgiText(success) && mem.stack == old(mem.stack)[..|old(mem.stack)| - 2]
    {
      mem.status := ByCgi;
      var domain := if success then cgiSuccess else cgiFail;
      domain.ShareRegion(mem.stack[socketFdRegion]);
      domain.ShareRegion(mem.stack[responseRegion]);
      domain.Call(mem);
      mem.stack := mem.stack[..|mem.stack| - 2];
    }

    /** request_reprocessing */
    method Reprocess(ghost k: nat)
      requires Valid(k) && started && responseRegion < |mem.stack| && mem !in Footprint()
      requires mem.stack[socketFdRegion] == Socket && mem.stack[responseRegion] == Response
      modifies Footprint(), mem
      ensures Valid(k) && started && mem.request == old(mem.request)
      ensures mem.request.Get? ==> mem.status == Found && mem.path == mem.request.path && mem.stack == old(mem.stack)
      ensures mem.request.PostBad? ==> mem.status == NotFound && mem.stack == old(mem.stack)
      ensures mem.request.PostCgi? ==>
        mem.status == ByCgi && mem.response == CgiText(mem.request.success) && mem.stack == old(mem.stack)[..|old(mem.stack)| - 2]
    {
      match mem.request
      case Get(path) =>
        mem.status, mem.path := Found, path;
      case PostCgi(success) =>
        HandleCgi(success, k);
      case PostBad =>
        mem.status := NotFound;
    }

    /** request_handle_404 and request_handle_200: the page is the last region of the stack. */
    method HandlePage(found: bool)
      requires |mem.stack| >= 3 && mem.stack[|mem.stack| - 1] == Html && |mem.html| <= REGION_SIZE
      modifies mem`response, mem`stack
      ensures mem.response == PageAnswer(found, mem.html)
      ensures mem.stack == old(mem.stack)[..|old(mem.stack)| - 3]
    {
      mem.response := PageAnswer(found, mem.html);
      mem.stack := mem.stack[..|mem.stack| - 3];
    }

    /** A call of the domain: `main` from its beginning the first time, from the call's return
        after that. */
    method Enter(ghost k: nat, ghost m: nat)
      requires Valid(k) && mem !in Footprint() && (!started ==> m == 0 && mem.status == Undefined)
      requires mem.stack == Bottom(k) + Pairs(m + 1) + (if mem.status == Undefined then [] else [Html])
      requires mem.status != ByCgi
      requires mem.status != Undefined ==> |mem.html| <= REGION_SIZE
      modifies Footprint(), mem
      ensures Valid(k) && started && mem.request == old(mem.request)
      ensures old(mem.status) == Undefined ==> (mem.status == match mem.request case Get(_) => Found case PostCgi(_) => ByCgi case PostBad => NotFound)
      ensures old(mem.status) == Undefined && mem.request.PostCgi? ==> mem.response == CgiText(mem.request.success)
      ensures old(mem.status) == Undefined ==> mem.stack == Bottom(k) + Pairs(if mem.status == ByCgi then m else m + 1)
      ensures old(mem.status) != Undefined ==>
        mem.status == old(mem.status) && mem.response == PageAnswer(mem.status == Found, old(mem.html)) && mem.stack == Bottom(k) + Pairs(m)
    {
      hide Pairs, Bottom, Reply;
      Places(k, m, mem.stack);
      if !started {
        Start(k);
      }
      match mem.status
      case Undefined => Reprocess(k);
      case Found => HandlePage(true);
      case NotFound => HandlePage(false);
      case ByCgi => assert false;
    }
  }

  /** The frontend's worker. `lent` are the regions shared as borrowed and not revoked; lentTwice
      counts how often one of them was shared again; `sent` are the responses written. */
  class Worker {
    const mem: Memory
    const backend: Backend
    var lent: set<Region>
    var lentTwice: nat
    var sent: seq<(nat, Answer)>

    constructor (mem: Memory, backend: Backend)
      requires backend.mem == mem
      ensures this.mem == mem && this.backend == backend && lent == {} && lentTwice == 0 && sent == []
    {
      this.mem, this.backend := mem, backend;
      lent, lentTwice, sent := {}, 0, [];
    }

    ghost function Footprint(): set<object> { {this, mem} + backend.Footprint() }

    /** Between two requests: m pairs have been left on the stack. */
    ghost predicate Valid(k: nat, m: nat)
      reads Footprint()
    {
      && backend.mem == mem && backend.Valid(k) && mem !in backend.Footprint() && this !in backend.Footprint()
      && mem as object != this && (backend.started || m == 0) && mem.stack == Bottom(k) + Pairs(m)
      && (lent == {} || lent == {Socket, Response})
    }

    /** shared_region_annotated of a borrowed region */
    method Lend(r: Region)
      modifies `lent, `lentTwice, mem`stack
      ensures mem.stack == old(mem.stack) + [r] && lent == old(lent) + {r}
      ensures lentTwice == old(lentTwice) + if r in old(lent) then 1 else 0
    {
      if r in lent {
        lentTwice := lentTwice + 1;
      }
      lent := lent + {r};
      mem.stack := mem.stack + [r];
    }

    method Revoke(r: Region)
      modifies `lent
      ensures lent == old(lent) - {r}
    {
      lent := lent - {r};
    }

    /** A request from its dequeuing to the end of the loop's body. */
    method HandleRequest(v: Visit, ghost k: nat, ghost m: nat)
      requires Valid(k, m) && VisitOk(v)
      modifies Footprint()
      ensures Valid(k, if Unanswered(v) then m + 1 else m)
      ensures sent == old(sent) + (if Unanswered(v) then [] else [(v.fd, AnswerTo(v))])
      ensures if v.request.PostCgi? || (v.request.Get? && v.page.Some?) || v.errorPage.Some?
        then |sent| == |old(sent)| + 1 && sent[..|old(sent)|] == old(sent) && sent[|old(sent)|].0 == v.fd && Meets(v, sent[|old(sent)|].1)
        else sent == old(sent)
      ensures lent == if Unanswered(v) then {Socket, Response} else {}
      ensures lentTwice == old(lentTwice) + if old(lent) == {} then 0 else 2
    {
      hide Pairs, Bottom, Reply, Backend.Domains, Meets;
      AnswerMeets(v);
      PushPair(k, m);
      mem.request := v.request;
      mem.status := Undefined;
      Lend(Socket);
      Lend(Response);
      assert mem.stack == Bottom(k) + Pairs(m) + [Socket] + [Response];
      backend.Enter(k, m);
      if mem.status == Found {
        if v.page.None? {
          mem.status := NotFound;
        } else {
          SendPage(v.fd, v.page.value, k, m);
        }
      }
      if mem.status == NotFound {
        if v.errorPage.Some? {
          SendPage(v.fd, v.errorPage.value, k, m);
        }
      }
      if mem.status == ByCgi {
        Revoke(Socket);
        Revoke(Response);
        sent := sent + [(v.fd, mem.response)];
      }
    }

    /** The page is put in its region, lent in the socket's stead, and what comes back is sent. */
    method SendPage(fd: nat, page: string, ghost k: nat, ghost m: nat)
      requires backend.mem == mem && backend.Valid(k) && mem !in backend.Footprint() && this !in backend.Footprint()
      requires mem as object != this && backend.started && lent == {Socket, Response}
      requires mem.stack == Bottom(k) + Pairs(m + 1) && (mem.status == Found || mem.status == NotFound)
      requires |page| <= REGION_SIZE
      modifies Footprint()
      ensures Valid(k, m) && backend.started && lent == {} && lentTwice == old(lentTwice)
      ensures mem.status == old(mem.status)
      ensures sent == old(sent) + [(fd, PageAnswer(mem.status == Found, page))]
    {
      hide Pairs, Bottom, Reply, Backend.Domains;
      mem.html := page;
      Revoke(Socket);
      Lend(Html);
      backend.Enter(k, m);
      Revoke(Html);
      Revoke(Response);
      sent := sent + [(fd, mem.response)];
    }

    /** Any run of requests. */
    method Serve(visits: seq<Visit>, ghost k: nat)
      requires Valid(k, 0) && lent == {} && forall v :: v in visits ==> VisitOk(v)
      modifies Footprint()
      ensures Valid(k, Stuck(visits)) && mem.stack == Bottom(k) + Pairs(Stuck(visits))
      ensures sent == old(sent) + Answers(visits)
      ensures |sent| == |old(sent)| + |Answered(visits)| && sent[..|old(sent)|] == old(sent)
      ensures forall i :: 0 <= i < |Answered(visits)| ==>
        sent[|old(sent)| + i].0 == Answered(visits)[i].fd && Meets(Answered(visits)[i], sent[|old(sent)| + i].1)
      ensures lentTwice == old(lentTwice) + 2 * AfterStuck(visits)
    {
      hide Pairs, Bottom, Backend.Valid, Meets, AnswerTo;
      AnswersMeet(visits);
      var i := 0;
      assert visits[..i] == [];
      while i < |visits|
        invariant i <= |visits| && Valid(k, Stuck(visits[..i])) && sent == old(sent) + Answers(visits[..i])
        invariant lent == if i > 0 && Unanswered(visits[i - 1]) then {Socket, Response} else {}
        invariant lentTwice == old(lentTwice) + 2 * AfterStuck(visits[..i])
      {
        assert visits[i] in visits;
        assert visits[..i + 1][..i] == visits[..i];
        HandleRequest(visits[i], k, Stuck(visits[..i]));
        i := i + 1;
      }
      assert visits[..i] == visits;
    }
  }

  lemma PushPair(k: nat, m: nat)
    ensures Bottom(k) + Pairs(m) + [Socket] + [Response] == Bottom(k) + Pairs(m + 1) + [] == Bottom(k) + Pairs(m + 1)
  {}

  function Stuck(visits: seq<Visit>): nat {
    if visits == [] then 0 else Stuck(visits[..|visits| - 1]) + if Unanswered(visits[|visits| - 1]) then 1 else 0
  }

  /** Requests that come straight after one left unanswered. */
  function AfterStuck(visits: seq<Visit>): nat {
    if |visits| < 2 then 0 else AfterStuck(visits[..|visits| - 1]) + if Unanswered(visits[|visits| - 2]) then 1 else 0
  }

  /** One answer for each request, in order, unless it is left unanswered. */
  function Answers(visits: seq<Visit>): seq<(nat, Answer)> {
    if visits == [] then []
    else
      var v := visits[|visits| - 1];
      Answers(visits[..|visits| - 1]) + if Unanswered(v) then [] else [(v.fd, AnswerTo(v))]
  }

  /** The visits that get an answer, in order. */
  function Answered(visits: seq<Visit>): seq<Visit> {
    if visits == [] then []
    else
      var v := visits[|visits| - 1];
      Answered(visits[..|visits| - 1]) + if Answerable(v) then [v] else []
  }

  lemma {:induction false} AnswersMeet(visits: seq<Visit>)
    requires forall v :: v in visits ==> VisitOk(v)
    ensures |Answers(visits)| == |Answered(visits)|
    ensures forall i :: 0 <= i < |Answered(visits)| ==>
      Answers(visits)[i].0 == Answered(visits)[i].fd && Meets(Answered(visits)[i], Answers(visits)[i].1)
  {
    hide Meets, AnswerTo;
    if visits != [] {
      assert visits[|visits| - 1] in visits;
      AnswerMeets(visits[|visits| - 1]);
      AnswersMeet(visits[..|visits| - 1]);
    }
  }

  /** Over any run these four come to the same: every error page that is wanted can be opened, each
      request has exactly one response, the backend's stack is back at its base, and, if one more
      request follows, no borrowed region is shared again before it has been revoked. */
  lemma {:induction false} ProtocolKeptIff(visits: seq<Visit>, next: Visit)
    ensures Stuck(visits) == 0 <==> forall v :: v in visits ==> !Unanswered(v)
    ensures Stuck(visits) == 0 <==> |Answers(visits)| == |visits|
    ensures Stuck(visits) == 0 <==> AfterStuck(visits + [next]) == 0
    ensures |Answers(visits)| + Stuck(visits) == |visits|
  {
    var all := visits + [next];
    assert all[..|visits|] == visits;
    if visits != [] {
      var init, v := visits[..|visits| - 1], visits[|visits| - 1];
      assert visits == init + [v] && all[|all| - 2] == v;
      ProtocolKeptIff(init, v);
    }
  }
}
