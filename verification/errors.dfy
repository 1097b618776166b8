/** The errors the builder throws, one constructor per `throw` site. */
module Errors {

  datatype Error =
    | InvalidKeyword          // a keyword fragment outside the registry, at render time
    | DuplicateColumn         // two columns of one table share a name
    | DuplicateTable          // two tables of one database share a raw name
    | TableNotFound(name: string)  // a looked-up table is not owned by the database

  /** The message text each error is thrown with. */
  function Message(e: Error): string {
    match e
    case InvalidKeyword => "Invalid keyword!"
    case DuplicateColumn => "Cannot have two columns with the same name!"
    case DuplicateTable => "Cannot have two tables with the same name!"
    case TableNotFound(name) => "No table with name `" + name + "`"
  }

  /** The not-found message names the missing table in backticks, after a
      fixed lead-in. */
  lemma MessageNamesTable(name: string)
    ensures var m := Message(TableNotFound(name));
              && |m| == |name| + 21
              && m[..20] == "No table with name `"
              && m[20..|m| - 1] == name
              && m[|m| - 1] == '`'
  {
  }

  /** Different errors are thrown with different messages, so the message
      identifies the error, down to the missing table's name. */
  lemma MessageInjective(e1: Error, e2: Error)
    ensures Message(e1) == Message(e2) ==> e1 == e2
  {
    if Message(e1) == Message(e2) {
      MessageMarks(e1);
      MessageMarks(e2);
      if e1.TableNotFound? && e2.TableNotFound? {
        MessageNamesTable(e1.name);
        MessageNamesTable(e2.name);
      }
    }
  }

  /** What tells the messages apart: the last character separates the
      not-found message, which closes its backtick, from the other three,
      which end in '!', and their lengths separate those. */
  lemma MessageMarks(e: Error)
    ensures |Message(e)| > 0
    ensures e.TableNotFound? <==> Message(e)[|Message(e)| - 1] == '`'
    ensures e.InvalidKeyword? ==> |Message(e)| == 16
    ensures e.DuplicateColumn? ==> |Message(e)| == 43
    ensures e.DuplicateTable? ==> |Message(e)| == 42
  {
    match e
    case InvalidKeyword => InvalidKeywordMark();
    case DuplicateColumn => DuplicateColumnMark();
    case DuplicateTable => DuplicateTableMark();
    case TableNotFound(name) => MessageNamesTable(name);
  }

  lemma InvalidKeywordMark()
    ensures var m := Message(InvalidKeyword); |m| == 16 && m[15] == '!'
  {
  }

  lemma DuplicateColumnMark()
    ensures var m := Message(DuplicateColumn); |m| == 43 && m[42] == '!'
  {
  }

  lemma DuplicateTableMark()
    ensures var m := Message(DuplicateTable); |m| == 42 && m[41] == '!'
  {
  }
}
