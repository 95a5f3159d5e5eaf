/**
 * The Arrow record builder the export fills row by row: one growing column
 * per schema field, typed appends, and `NewRecord`, which hands the columns
 * out as a record and leaves every column empty again.
 */
module RecordBuilding {
  import opened ArrowSchema
  import opened RowProjection

  class RecordBuilder {
    const schema: seq<Field>
    var columns: seq<seq<Cell>>

    /** One column per field of the schema. */
    ghost predicate Valid()
      reads this
    {
      |columns| == |schema|
    }

    constructor (schema: seq<Field>)
      ensures Valid() && this.schema == schema
      ensures forall j :: 0 <= j < |columns| ==> columns[j] == []
    {
      this.schema := schema;
      columns := seq(|schema|, _ => []);
    }

    /** Appends a value to column `j`; the typed builder of that column must accept it. */
    method Append(j: nat, c: Cell)
      requires Valid() && j < |schema|
      requires c != Null && Fits(c, schema[j].typ)
      modifies this
      ensures Valid()
      ensures columns == old(columns)[j := old(columns)[j] + [c]]
    {
      columns := columns[j := columns[j] + [c]];
    }

    /** Appends an explicit null to column `j`. */
    method AppendNull(j: nat)
      requires Valid() && j < |schema|
      modifies this
      ensures Valid()
      ensures columns == old(columns)[j := old(columns)[j] + [Null]]
    {
      columns := columns[j := columns[j] + [Null]];
    }

    /** The number of entries in column `j`. */
    method Len(j: nat) returns (n: nat)
      requires Valid() && j < |schema|
      ensures n == |columns[j]|
    {
      n := |columns[j]|;
    }

    /** Hands out the columns built so far as a record and resets every column to empty. */
    method NewRecord() returns (record: seq<seq<Cell>>)
      requires Valid()
      modifies this
      ensures Valid()
      ensures record == old(columns)
      ensures forall j :: 0 <= j < |columns| ==> columns[j] == []
    {
      record := columns;
      columns := seq(|schema|, _ => []);
    }
  }
}
