/** Events, responses and limits of the transmission. */
module Types {
  import opened Bytes

  const API_MAX_BATCH_SIZE: nat := 5_000_000
  const API_EVENT_SIZE_MAX: nat := 1_000_000
  const MAX_OVERFLOW_BATCHES: nat := 10

  /** An event on its way to the server. `content` stands for everything that is
      encoded (data, sample rate, time); `metadata` is the caller's, and only
      ever travels back on a response. */
  datatype Event = Event(apiHost: string, apiKey: string, dataset: string, metadata: int, content: int)

  datatype Error =
    | SampledOut
    | QueueOverflow
    | NotEncodable
    | TooLarge
    | BadUrl
    | Transport(code: int)
    | UnreadableBody
    | UnexpectedStatus(status: int)
    | Undecodable
    | FromServer(message: string)

  datatype Response = Response(err: Option<Error>, status: int, body: Text, metadata: int)

  function ErrorResponse(err: Error, metadata: int): Response
  {
    Response(Some(err), 0, [], metadata)
  }

  /** The metadata that a run of responses hands back. */
  function Handed(rs: seq<Response>): seq<int>
  {
    seq(|rs|, i requires 0 <= i < |rs| => rs[i].metadata)
  }

  /** The metadata that a run of events is owed. */
  function Owed(es: seq<Event>): seq<int>
  {
    seq(|es|, i requires 0 <= i < |es| => es[i].metadata)
  }

  lemma HandedConcat(a: seq<Response>, b: seq<Response>)
    ensures Handed(a + b) == Handed(a) + Handed(b)
    ensures multiset(Handed(a + b)) == multiset(Handed(a)) + multiset(Handed(b))
  {
    assert Handed(a + b) == Handed(a) + Handed(b);
  }

  lemma OwedConcat(a: seq<Event>, b: seq<Event>)
    ensures Owed(a + b) == Owed(a) + Owed(b)
    ensures multiset(Owed(a + b)) == multiset(Owed(a)) + multiset(Owed(b))
  {
    assert Owed(a + b) == Owed(a) + Owed(b);
  }
}
