/**
  The collaborators the `mx` command talks to, reduced to their observable
  results: the JMX connection provider, the name query of the MBean server and
  the four accessor calls of the MBean helper. None of them is modelled inside;
  an `Environment` value fixes what each of them answers, so that the command's
  own decisions can be stated for every possible answer.
 */
module Remote {
  import opened Lines

  /** A Java reference that may be null. */
  datatype Option<+T> = None | Some(value: T)

  /** What a collaborator did: return a value, or throw an exception, which the
      command only ever uses through its `toString()` text. */
  datatype Fallible<+T> = Returned(value: T) | Threw(description: string)

  /** No element occurs twice. */
  predicate Distinct<T(==)>(s: seq<T>)
  {
    forall i, j :: 0 <= i < j < |s| ==> s[i] != s[j]
  }

  /** The printed form of a JMX object name. The object name grammar admits no
      newline in a domain, key or value, so a name is a single line. */
  type Name = Line

  /** The set of names a pattern query returned, in its iteration order. */
  type Matches = s: seq<Name> | Distinct(s) witness []

  /** An open MBean server connection, identified only by a handle. */
  datatype Conn = Conn(handle: nat)

  /** The answers of every collaborator for one invocation of the command.
      `connect` is the connection provider; `query` stands for parsing the
      pattern as an object name and asking the server for the matching names;
      the other four are the MBean helper's accessor calls. */
  datatype Environment = Environment(
    connect: Fallible<Conn>,
    query: (Conn, string) -> Fallible<Matches>,
    invoke: (Conn, Name, string, seq<string>) -> Fallible<string>,
    read: (Conn, Name, string) -> Fallible<string>,
    write: (Conn, Name, string, string) -> Fallible<()>,
    describe: (Conn, Name) -> Fallible<string>)

  /** A call the command made into a collaborator, with its arguments. */
  datatype Step =
    | Connect
    | Query(pattern: string)
    | Invoke(bean: Name, operation: string, arguments: seq<string>)
    | Read(bean: Name, attribute: string)
    | Write(bean: Name, attribute: string, value: string)
    | Describe(bean: Name)
  {
    /** True for the four accessor calls, false for connecting and querying. */
    predicate IsAccess()
    {
      !Connect? && !Query?
    }
  }
}
