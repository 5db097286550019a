/**
 * createConversationSchema: { participantIds: non-empty array of non-empty strings }.
 */
module ConversationValidator {
  import opened Common
  import opened Zod

  const NonEmpty := [MinLength(1, DefaultMinOne)]
  const NoUrl: string -> bool := (s: string) => false

  function CreateConversationIssues(body: Json): seq<Issue> {
    if !body.JObject? then NotAnObject(body)
    else ParseStringArray([Key("participantIds")], Get(body.fields, "participantIds"), 1,
                          DefaultArrayMinOne, NonEmpty, NoUrl)
  }

  /** The schema accepts exactly the objects whose participantIds is an array
      of at least one element, every element a non-empty string. Nothing is
      said about duplicates or the caller's own id. */
  lemma CreateConversationAcceptedIff(body: Json)
    ensures CreateConversationIssues(body) == [] <==>
              && body.JObject?
              && "participantIds" in body.fields
              && body.fields["participantIds"].JArray?
              && |body.fields["participantIds"].items| >= 1
              && forall j :: 0 <= j < |body.fields["participantIds"].items| ==>
                   body.fields["participantIds"].items[j].JString? && |body.fields["participantIds"].items[j].s| >= 1
  {
    if body.JObject? && "participantIds" in body.fields && body.fields["participantIds"].JArray? {
      var items := body.fields["participantIds"].items;
      forall j | 0 <= j < |items| && items[j].JString?
        ensures Passes(items[j].s, NonEmpty[0], NoUrl) <==> |items[j].s| >= 1
      {
      }
    }
  }

  /** A body without participantIds is refused with "Required" on that field. */
  lemma MissingParticipantsRefused(body: Json)
    requires body.JObject? && "participantIds" !in body.fields
    ensures CreateConversationIssues(body) == [Issue([Key("participantIds")], "Required")]
  {
  }

  /** Repeated ids, the caller's own included, pass the schema. */
  lemma DuplicatesAccepted(id: string)
    requires |id| >= 1
    ensures CreateConversationIssues(JObject(map["participantIds" := JArray([JString(id), JString(id)])])) == []
  {
    CreateConversationAcceptedIff(JObject(map["participantIds" := JArray([JString(id), JString(id)])]));
  }
}
