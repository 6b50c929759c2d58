/**
 The web-search collaborator as the tools see it. The client call itself is
 a parameter: a function from query to what the call does, either return
 the response dict or raise an exception.
 */
module Search {

  /** One entry of the response's "results" list. */
  datatype Item = Item(content: string, url: string)

  /**
   The response dict: its "results" and "images" lists. A key the dict
   lacks reads as an empty list, which every caller treats alike.
   */
  datatype Response = Response(results: seq<Item>, images: seq<string>)

  /** What the client call does for one query. */
  datatype Outcome = Returned(response: Response) | Raised(description: string)

  type Client = string -> Outcome

  /** The value tavily_search_with_images hands back: the dict, or a string. */
  datatype Reply = Dict(response: Response) | Text(text: string)

  const ErrorPrefix := "Error during Tavily search: "

  /**
   tavily_search_with_images: never raises. A returned dict comes back as it
   is; an exception comes back as a string that names it.
   */
  function SearchWithImages(client: Client, query: string): (r: Reply)
    ensures r.Dict? <==> client(query).Returned?
    ensures r.Dict? ==> r.response == client(query).response
  {
    match client(query)
    case Returned(response) => Dict(response)
    case Raised(description) => Text(ErrorPrefix + description)
  }

  /** isinstance(reply, dict) and reply.get('results'): a dict with at least one result. */
  predicate HasResults(reply: Reply)
  {
    reply.Dict? && |reply.response.results| > 0
  }

  /** isinstance(reply, dict) and reply.get('images'): a dict with at least one image. */
  predicate HasImages(reply: Reply)
  {
    reply.Dict? && |reply.response.images| > 0
  }
}
