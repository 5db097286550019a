/**
 * sendMessageSchema: { conversationId, content, attachments? }.
 */
module MessageValidator {
  import opened Common
  import opened Zod

  const NonEmpty := [MinLength(1, DefaultMinOne)]
  const UrlChecks := [Url(DefaultUrl)]

  /** The issues of a send-message body; isUrl decides zod's url check. */
  function SendMessageIssues(body: Json, isUrl: string -> bool): seq<Issue> {
    if !body.JObject? then NotAnObject(body)
    else
      var attachments := Get(body.fields, "attachments");
      ParseString([Key("conversationId")], Get(body.fields, "conversationId"), NonEmpty, isUrl)
      + ParseString([Key("content")], Get(body.fields, "content"), NonEmpty, isUrl)
      + (if attachments.None? then []
         else ParseStringArray([Key("attachments")], attachments, 0, DefaultArrayMinOne, UrlChecks, isUrl))
  }

  /** A field holding a string of at least one character; whitespace counts. */
  predicate NonEmptyString(fields: map<string, Json>, key: string) {
    key in fields && fields[key].JString? && |fields[key].s| >= 1
  }

  /** Either no attachments, or an array (possibly empty) of URL strings. */
  predicate AttachmentsOk(fields: map<string, Json>, isUrl: string -> bool) {
    "attachments" in fields ==>
      && fields["attachments"].JArray?
      && forall j :: 0 <= j < |fields["attachments"].items| ==>
           fields["attachments"].items[j].JString? && isUrl(fields["attachments"].items[j].s)
  }

  lemma NonEmptyIff(key: string, v: Option<Json>, isUrl: string -> bool)
    ensures ParseString([Key(key)], v, NonEmpty, isUrl) == [] <==> v.Some? && v.value.JString? && |v.value.s| >= 1
  {
    if v.Some? && v.value.JString? {
      assert Passes(v.value.s, NonEmpty[0], isUrl) <==> |v.value.s| >= 1;
    }
  }

  lemma AttachmentsIff(fields: map<string, Json>, isUrl: string -> bool)
    requires "attachments" in fields
    ensures ParseStringArray([Key("attachments")], Some(fields["attachments"]), 0, DefaultArrayMinOne, UrlChecks, isUrl) == []
            <==> AttachmentsOk(fields, isUrl)
  {
    var v := fields["attachments"];
    if v.JArray? {
      forall j | 0 <= j < |v.items| && v.items[j].JString?
        ensures Passes(v.items[j].s, UrlChecks[0], isUrl) <==> isUrl(v.items[j].s)
      {
      }
    }
  }

  /** The schema accepts exactly the objects with a non-empty conversationId,
      non-empty content (no trimming: "   " passes), and attachments either
      left out or an array of URLs. A single non-URL attachment rejects the
      whole body. */
  lemma SendMessageAcceptedIff(body: Json, isUrl: string -> bool)
    ensures SendMessageIssues(body, isUrl) == [] <==>
              body.JObject? && NonEmptyString(body.fields, "conversationId")
              && NonEmptyString(body.fields, "content") && AttachmentsOk(body.fields, isUrl)
  {
    if body.JObject? {
      NonEmptyIff("conversationId", Get(body.fields, "conversationId"), isUrl);
      NonEmptyIff("content", Get(body.fields, "content"), isUrl);
      if "attachments" in body.fields {
        AttachmentsIff(body.fields, isUrl);
      }
    }
  }

  /** Whitespace-only content is accepted. */
  lemma WhitespaceContentAccepted(isUrl: string -> bool)
    ensures SendMessageIssues(JObject(map["conversationId" := JString("c1"), "content" := JString(" ")]), isUrl) == []
  {
    var body := JObject(map["conversationId" := JString("c1"), "content" := JString(" ")]);
    SendMessageAcceptedIff(body, isUrl);
  }

  /** An empty attachment list is accepted. */
  lemma EmptyAttachmentsAccepted(isUrl: string -> bool)
    ensures SendMessageIssues(JObject(map["conversationId" := JString("c1"), "content" := JString("hi"),
                                          "attachments" := JArray([])]), isUrl) == []
  {
    var body := JObject(map["conversationId" := JString("c1"), "content" := JString("hi"), "attachments" := JArray([])]);
    SendMessageAcceptedIff(body, isUrl);
  }
}
