/** The records of backend/schemas/identify.py whose fields the recognition post-processing
    reassigns in place. `personalization` and `fun_facts` are never replaced, only their
    fields, so they are `const` references. */
module Schemas {
  import opened Wrappers

  class Personalization {
    var ageBracket: Option<string>
    var matchedInterest: seq<string>

    constructor(ageBracket: Option<string>, matchedInterest: seq<string>)
      ensures this.ageBracket == ageBracket && this.matchedInterest == matchedInterest
    {
      this.ageBracket := ageBracket;
      this.matchedInterest := matchedInterest;
    }
  }

  class FunFacts {
    var matchFacts: seq<string>
    var discoveryFacts: seq<string>

    constructor(matchFacts: seq<string>, discoveryFacts: seq<string>)
      ensures this.matchFacts == matchFacts && this.discoveryFacts == discoveryFacts
    {
      this.matchFacts := matchFacts;
      this.discoveryFacts := discoveryFacts;
    }
  }

  class IdentifyResponse {
    var landmarkName: string
    var location: string
    var tags: seq<string>
    var description: string
    const personalization: Personalization
    const funFacts: FunFacts
    var suggestedQuestions: seq<string>
    var confidenceScore: Option<real>
    var needsConfirmation: Option<bool>
    var candidates: Option<seq<string>>

    constructor(landmarkName: string, location: string, tags: seq<string>, description: string,
                personalization: Personalization, funFacts: FunFacts, suggestedQuestions: seq<string>,
                confidenceScore: Option<real>, needsConfirmation: Option<bool>, candidates: Option<seq<string>>)
      ensures this.landmarkName == landmarkName && this.location == location && this.tags == tags
      ensures this.description == description && this.personalization == personalization
      ensures this.funFacts == funFacts && this.suggestedQuestions == suggestedQuestions
      ensures this.confidenceScore == confidenceScore && this.needsConfirmation == needsConfirmation
      ensures this.candidates == candidates
    {
      this.landmarkName := landmarkName;
      this.location := location;
      this.tags := tags;
      this.description := description;
      this.personalization := personalization;
      this.funFacts := funFacts;
      this.suggestedQuestions := suggestedQuestions;
      this.confidenceScore := confidenceScore;
      this.needsConfirmation := needsConfirmation;
      this.candidates := candidates;
    }

    /** Every field of the response, its personalization and its fun facts, as one value. */
    function View(): ResponseView
      reads this, personalization, funFacts
    {
      ResponseView(landmarkName, location, tags, description,
                   personalization.ageBracket, personalization.matchedInterest,
                   funFacts.matchFacts, funFacts.discoveryFacts,
                   suggestedQuestions, confidenceScore, needsConfirmation, candidates)
    }
  }

  /** The contents of an `IdentifyResponse` at one moment, nested records flattened. */
  datatype ResponseView = ResponseView(
    landmarkName: string, location: string, tags: seq<string>, description: string,
    ageBracket: Option<string>, matchedInterest: seq<string>,
    matchFacts: seq<string>, discoveryFacts: seq<string>,
    suggestedQuestions: seq<string>, confidenceScore: Option<real>,
    needsConfirmation: Option<bool>, candidates: Option<seq<string>>)
}
