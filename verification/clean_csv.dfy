/** The cleaning pass run on a freshly exported CSV file: the header record
    is copied and every data record without a single non-empty field is
    dropped. Records are modelled as `csv.reader` yields them. */
module CsvCleaner {
  import opened Base
  import opened Seqs

  /** `any(row)`: some field is a non-empty string (a field of spaces counts). */
  predicate HasContent(row: seq<string>) {
    exists i :: 0 <= i < |row| && row[i] != ""
  }

  /** The records written back: the header, then the data records with content.
      An empty file has no header, and `next(reader)` raises. */
  function Clean(records: seq<seq<string>>): (r: Result<seq<seq<string>>, Exc>)
    ensures r.Ok? <==> records != []
    ensures r.Err? ==> r.error == Exc(StopIteration, "")
    ensures r.Ok? ==> r.value != [] && r.value[0] == records[0] && |r.value| <= |records|
  {
    if records == [] then Err(Exc(StopIteration, ""))
    else Ok([records[0]] + Filter(records[1..], HasContent))
  }

  /** A data record is written iff it has content; everything written after
      the header is an input data record with content, the relative order of
      the kept records is that of the input, and each record with content is
      written as many times as the input holds it. */
  lemma CleanKeeps(records: seq<seq<string>>)
    requires records != []
    ensures forall k :: 1 <= k < |records| ==> (records[k] in Clean(records).value[1..] <==> HasContent(records[k]))
    ensures forall j :: 1 <= j < |Clean(records).value| ==>
      Clean(records).value[j] in records[1..] && HasContent(Clean(records).value[j])
    ensures IsSubseq(Clean(records).value[1..], records[1..])
    ensures forall x :: multiset(Clean(records).value[1..])[x] == if HasContent(x) then multiset(records[1..])[x] else 0
  {
    var body := records[1..];
    var kept := Filter(body, HasContent);
    assert Clean(records).value[1..] == kept;
    assert forall k :: 1 <= k < |records| ==> records[k] == body[k - 1];
    FilterIsSubseq(body, HasContent);
    FilterCount(body, HasContent);
  }

  /** Cleaning a cleaned file changes nothing. */
  lemma CleanIdempotent(records: seq<seq<string>>)
    requires records != []
    ensures Clean(Clean(records).value) == Clean(records)
  {
    var body := Filter(records[1..], HasContent);
    var once := [records[0]] + body;
    assert once[0] == records[0] && once[1..] == body;
    FilterIdempotent(records[1..], HasContent);
  }

  /** Example: fields of spaces are content; a record of empty fields, and a record of
      no fields at all (a blank line), are not. */
  lemma HasContentCases()
    ensures HasContent([" "]) && HasContent(["", "x"])
    ensures !HasContent([]) && !HasContent(["", ""])
  {
    assert [" "][0] != "";
    assert ["", "x"][1] != "";
  }
}
