/**
 * The records the pipeline passes around: scars, doctrines and echoes.  Their
 * fields are the ones the code that consumes them reads and writes; clock values
 * are integers supplied by the caller.
 */
module Records {
  import opened Wrappers

  /** A symbolic collapse event. */
  datatype Scar = Scar(
    id: string,
    name: string,
    origin: string,
    scarType: string,
    weight: real,
    createdAt: int,
    decayState: string,
    linkedDoctrines: seq<string>,
    lastAccessed: Option<int>,
    description: string,
    echoProximity: seq<string>,
    reflexes: seq<string>,
    tcaTags: seq<string>,
    isSeed: bool)

  /** A structural truth and the names it has carried before. */
  datatype Doctrine = Doctrine(
    id: string,
    name: string,
    mutationLineage: seq<string>,
    scarLinks: seq<string>,
    status: string,
    createdAt: int,
    lastMutated: Option<int>,
    description: string,
    tcaTags: seq<string>,
    isSeed: bool)

  /** An input fragment after perception. */
  datatype Echo = Echo(
    id: string,
    content: string,
    source: string,
    resonanceScore: real,
    createdAt: int,
    doctrineLink: Option<string>)
}
