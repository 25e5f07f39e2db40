/**
 * The `send-feedback` edge function (supabase/functions/send-feedback/index.ts):
 * it validates a feedback report, truncates its fields, turns the defined
 * ones into query parameters and forwards them to a webhook, answering with
 * a status code for each way that can end.
 */
module Feedback {
  import opened Wrappers
  import opened JsString

  const TypeMaxLength: nat := 100
  const DescriptionMaxLength: nat := 2000
  const EmailMaxLength: nat := 254
  const UserNameMaxLength: nat := 100

  /** The JSON body: `type` and `description` are required, the rest optional. */
  datatype FeedbackRequest = FeedbackRequest(
    kind: Option<string>,
    description: Option<string>,
    email: Option<string>,
    userId: Option<string>,
    userName: Option<string>)

  /** What `req.json()` gave: a report, or a body that is not JSON and throws. */
  datatype Body = Parsed(report: FeedbackRequest) | Malformed

  datatype Request = Request(httpMethod: string, body: Body)

  /** A JavaScript string is truthy when it is present and not empty. */
  predicate Truthy(s: Option<string>) {
    s.Some? && s.value != ""
  }

  /** `type` and `description` are both truthy. */
  predicate HasRequiredFields(report: FeedbackRequest) {
    Truthy(report.kind) && Truthy(report.description)
  }

  /** The `sanitizedData` record. */
  datatype Sanitized = Sanitized(
    kind: string,
    description: string,
    email: Option<string>,
    userId: Option<string>,
    userName: Option<string>,
    timestamp: string)

  /** `s.slice(0, n)` kept when the field is present. */
  function SliceField(s: Option<string>, n: nat): (r: Option<string>)
    ensures r.Some? <==> s.Some?
    ensures r.Some? ==> |r.value| == (if |s.value| <= n then |s.value| else n) && r.value <= s.value
    ensures r.Some? && |s.value| <= n ==> r == s
  {
    if s.Some? then
      var t := Take(s.value, n);
      assert t == s.value[..|t|];
      assert |s.value| <= n ==> t == s.value[..|s.value|] == s.value;
      Some(t)
    else None
  }

  /**
   * The truncation: `type` to 100 characters, `description` to 2000, a
   * present `email` to 254 and `userName` to 100, each a prefix of what was
   * sent; `userId` passes through unchanged.
   */
  function SanitizeFeedback(report: FeedbackRequest, timestamp: string): (r: Sanitized)
    requires HasRequiredFields(report)
    ensures r.kind <= report.kind.value
    ensures |r.kind| == if |report.kind.value| <= TypeMaxLength then |report.kind.value| else TypeMaxLength
    ensures r.description <= report.description.value
    ensures |r.description| == if |report.description.value| <= DescriptionMaxLength then |report.description.value| else DescriptionMaxLength
    ensures r.kind != "" && r.description != ""
    ensures r.email.Some? <==> report.email.Some?
    ensures r.email.Some? ==> r.email.value <= report.email.value
    ensures r.email.Some? ==>
      |r.email.value| == if |report.email.value| <= EmailMaxLength then |report.email.value| else EmailMaxLength
    ensures r.userName.Some? <==> report.userName.Some?
    ensures r.userName.Some? ==> r.userName.value <= report.userName.value
    ensures r.userName.Some? ==>
      |r.userName.value| == if |report.userName.value| <= UserNameMaxLength then |report.userName.value| else UserNameMaxLength
    ensures r.userId == report.userId && r.timestamp == timestamp
  {
    Sanitized(
      Take(report.kind.value, TypeMaxLength),
      Take(report.description.value, DescriptionMaxLength),
      SliceField(report.email, EmailMaxLength),
      report.userId,
      SliceField(report.userName, UserNameMaxLength),
      timestamp)
  }

  /** `Object.entries(sanitizedData)`, in the record's key order. */
  function Entries(s: Sanitized): seq<(string, Option<string>)> {
    [("type", Some(s.kind)), ("description", Some(s.description)), ("email", s.email),
     ("userId", s.userId), ("userName", s.userName), ("timestamp", Some(s.timestamp))]
  }

  /** The entries whose value is defined, in order. */
  function PresentEntries(entries: seq<(string, Option<string>)>): (r: seq<(string, string)>)
    ensures |r| <= |entries|
  {
    if entries == [] then []
    else
      var rest := PresentEntries(entries[1..]);
      if entries[0].1.Some? then [(entries[0].0, entries[0].1.value)] + rest else rest
  }

  /** A pair is a parameter exactly when its key is an entry with that value defined. */
  lemma {:induction false} PresentEntriesMembers(entries: seq<(string, Option<string>)>, p: (string, string))
    ensures p in PresentEntries(entries) <==> (p.0, Some(p.1)) in entries
    decreases |entries|
  {
    if entries != [] {
      PresentEntriesMembers(entries[1..], p);
      assert (p.0, Some(p.1)) in entries <==> (p.0, Some(p.1)) == entries[0] || (p.0, Some(p.1)) in entries[1..];
    }
  }

  /** The `forEach` that appends each defined entry to `URLSearchParams`. */
  method BuildQuery(entries: seq<(string, Option<string>)>) returns (params: seq<(string, string)>)
    ensures params == PresentEntries(entries)
  {
    params := [];
    var i := 0;
    while i < |entries|
      invariant 0 <= i <= |entries|
      invariant params + PresentEntries(entries[i..]) == PresentEntries(entries)
    {
      assert entries[i..][1..] == entries[i + 1..];
      if entries[i].1.Some? {
        params := params + [(entries[i].0, entries[i].1.value)];
      }
      i := i + 1;
    }
  }

  /** The parameter an optional entry contributes: one when defined, none otherwise. */
  function Param(key: string, value: Option<string>): seq<(string, string)> {
    if value.Some? then [(key, value.value)] else []
  }

  lemma {:induction false} PresentEntriesConcat(a: seq<(string, Option<string>)>, b: seq<(string, Option<string>)>)
    ensures PresentEntries(a + b) == PresentEntries(a) + PresentEntries(b)
    decreases |a|
  {
    if a != [] {
      assert (a + b)[1..] == a[1..] + b;
      PresentEntriesConcat(a[1..], b);
    } else {
      assert a + b == b;
    }
  }

  lemma PresentEntriesSingle(e: (string, Option<string>))
    ensures PresentEntries([e]) == Param(e.0, e.1)
  {
    assert [e][1..] == [];
  }

  /**
   * The parameters of a sanitized report, in the record's key order: type
   * and description, then each of email, user id and user name only when
   * defined, then the timestamp.
   */
  lemma QueryOfReport(s: Sanitized)
    ensures PresentEntries(Entries(s)) ==
      [("type", s.kind), ("description", s.description)] + Param("email", s.email) +
      Param("userId", s.userId) + Param("userName", s.userName) + [("timestamp", s.timestamp)]
  {
    var e := Entries(s);
    var p0, p1, p2, p3, p4 := [e[0]], [e[0]] + [e[1]], [e[0]] + [e[1]] + [e[2]],
      [e[0]] + [e[1]] + [e[2]] + [e[3]], [e[0]] + [e[1]] + [e[2]] + [e[3]] + [e[4]];
    assert e == p4 + [e[5]];
    PresentEntriesConcat(p4, [e[5]]);
    PresentEntriesConcat(p3, [e[4]]);
    PresentEntriesConcat(p2, [e[3]]);
    PresentEntriesConcat(p1, [e[2]]);
    PresentEntriesConcat(p0, [e[1]]);
    PresentEntriesSingle(e[0]);
    PresentEntriesSingle(e[1]);
    PresentEntriesSingle(e[2]);
    PresentEntriesSingle(e[3]);
    PresentEntriesSingle(e[4]);
    PresentEntriesSingle(e[5]);
  }

  datatype ResponseBody = NoBody | Error(message: string) | Success(message: string)

  /** A response: the status, the body, and whether it is labelled JSON. The CORS headers go on every one. */
  datatype Response = Response(status: nat, body: ResponseBody, json: bool)

  /** The webhook call the function makes: its base URL and the query parameters. */
  datatype WebhookCall = WebhookCall(url: string, params: seq<(string, string)>)

  /**
   * The handler. `webhookUrl` is `FEEDBACK_WEBHOOK_URL`; `webhookOk` is the
   * webhook's `ok`, or `None` when `fetch` throws; `now` is the timestamp.
   */
  method Serve(request: Request, webhookUrl: Option<string>, webhookOk: Option<bool>, now: string)
    returns (response: Response, call: Option<WebhookCall>)
    ensures request.httpMethod == "OPTIONS" ==> response == Response(200, NoBody, false) && call.None?
    ensures request.httpMethod != "OPTIONS" && request.body.Malformed? ==>
      response == Response(500, Error("Internal server error"), true) && call.None?
    ensures request.httpMethod != "OPTIONS" && request.body.Parsed? && !HasRequiredFields(request.body.report) ==>
      response == Response(400, Error("Missing required fields"), true) && call.None?
    ensures request.httpMethod != "OPTIONS" && request.body.Parsed? && HasRequiredFields(request.body.report) ==>
      (!Truthy(webhookUrl) ==> response == Response(500, Error("Feedback service not configured"), true) && call.None?) &&
      (Truthy(webhookUrl) ==>
        call == Some(WebhookCall(webhookUrl.value, PresentEntries(Entries(SanitizeFeedback(request.body.report, now))))) &&
        response == match webhookOk {
          case None => Response(500, Error("Internal server error"), true)
          case Some(false) => Response(500, Error("Failed to send feedback"), true)
          case Some(true) => Response(200, Success("Feedback sent successfully"), true)
        })
  {
    call := None;
    if request.httpMethod == "OPTIONS" {
      return Response(200, NoBody, false), None;
    }
    if request.body.Malformed? {
      return Response(500, Error("Internal server error"), true), None;
    }
    var report := request.body.report;
    if !HasRequiredFields(report) {
      return Response(400, Error("Missing required fields"), true), None;
    }
    if !Truthy(webhookUrl) {
      return Response(500, Error("Feedback service not configured"), true), None;
    }
    var sanitized := SanitizeFeedback(report, now);
    var params := BuildQuery(Entries(sanitized));
    call := Some(WebhookCall(webhookUrl.value, params));
    match webhookOk {
      case None =>
        response := Response(500, Error("Internal server error"), true);
      case Some(ok) =>
        if !ok {
          response := Response(500, Error("Failed to send feedback"), true);
        } else {
          response := Response(200, Success("Feedback sent successfully"), true);
        }
    }
  }

  /** A report missing a required field is refused the same way whatever the configuration and the webhook. */
  method RejectionIgnoresEnvironment(report: FeedbackRequest, urlA: Option<string>, urlB: Option<string>,
                                     okA: Option<bool>, okB: Option<bool>, now: string)
    returns (same: bool)
    requires !HasRequiredFields(report)
    ensures same
  {
    var a, callA := Serve(Request("POST", Parsed(report)), urlA, okA, now);
    var b, callB := Serve(Request("POST", Parsed(report)), urlB, okB, now);
    same := a == b && a.status == 400 && callA.None? && callB.None?;
  }
}
