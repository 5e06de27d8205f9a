/**
 * `optimize_json`: take the first message of a grib_dump JSON document, a list
 * of key/value records, fold it into one dictionary, and write that beside the
 * input under the input's name with "_new" inserted before its last five
 * characters.
 *
 * The parsed document comes in as its `messages` list, each message a list of
 * (key, value) records; the dictionary goes out as a map.
 */
module JsonFlattener {
  import opened PyStr

  datatype Option<T> = None | Some(value: T)

  /** `json_dict["messages"][0]` on an empty list raises IndexError. */
  datatype JsonError = IndexError

  datatype Result<T> = Ok(value: T) | Err(error: JsonError)

  /** The keys of a list of records. */
  function KeysOf<K(==), V>(records: seq<(K, V)>): set<K>
  {
    set i | 0 <= i < |records| :: records[i].0
  }

  /** `{json_obj[i]["key"]: json_obj[i]["value"] for i in range(len(json_obj))}`: the
      records in list order, a later record overwriting an earlier one with its key. */
  function Comprehension<K(==), V>(records: seq<(K, V)>): (d: map<K, V>)
    ensures d.Keys == KeysOf(records)
    decreases |records|
  {
    if records == [] then map[]
    else
      var front, last := records[..|records| - 1], records[|records| - 1];
      assert KeysOf(records) == KeysOf(front) + {last.0} by {
        assert forall i :: 0 <= i < |front| ==> records[i] == front[i];
      }
      Comprehension(front)[last.0 := last.1]
  }

  /** An independent reading of the same policy: search the records from the end. */
  function LastValue<K(==), V>(records: seq<(K, V)>, key: K): Option<V>
    decreases |records|
  {
    if records == [] then None
    else if records[|records| - 1].0 == key then Some(records[|records| - 1].1)
    else LastValue(records[..|records| - 1], key)
  }

  /** The comprehension holds a key exactly when some record has it, with the value of
      the last such record. */
  lemma {:induction false} ComprehensionKeepsLastOccurrence<K, V>(records: seq<(K, V)>, key: K)
    ensures key in Comprehension(records) <==> LastValue(records, key).Some?
    ensures key in Comprehension(records) ==> Comprehension(records)[key] == LastValue(records, key).value
    decreases |records|
  {
    if records != [] {
      ComprehensionKeepsLastOccurrence(records[..|records| - 1], key);
    }
  }

  /** A record that no later record overrides: its key has its value. */
  ghost predicate IsLastWithKey<K, V>(records: seq<(K, V)>, i: nat)
  {
    i < |records| && forall j :: i < j < |records| ==> records[j].0 != records[i].0
  }

  lemma {:induction false} LastValueOfLastRecord<K, V>(records: seq<(K, V)>, i: nat)
    requires IsLastWithKey(records, i)
    ensures LastValue(records, records[i].0) == Some(records[i].1)
    decreases |records|
  {
    if i < |records| - 1 {
      var front := records[..|records| - 1];
      assert records[|records| - 1].0 != records[i].0;
      assert front[i] == records[i];
      assert IsLastWithKey(front, i) by {
        forall j | i < j < |front| ensures front[j].0 != front[i].0 {
          assert front[j] == records[j];
        }
      }
      LastValueOfLastRecord(front, i);
    }
  }

  /** Every record that no later record overrides keeps its value in the comprehension. */
  lemma LastRecordsWin<K, V>(records: seq<(K, V)>)
    ensures forall i: nat :: IsLastWithKey(records, i) ==>
      records[i].0 in Comprehension(records) && Comprehension(records)[records[i].0] == records[i].1
  {
    forall i: nat | IsLastWithKey(records, i)
      ensures records[i].0 in Comprehension(records) && Comprehension(records)[records[i].0] == records[i].1
    {
      LastValueOfLastRecord(records, i);
      ComprehensionKeepsLastOccurrence(records, records[i].0);
    }
  }

  /** The dictionary built from `messages[0]`, or IndexError when there is no message. */
  function Flatten<K(==), V>(messages: seq<seq<(K, V)>>): (r: Result<map<K, V>>)
    ensures r.Err? <==> messages == []
    ensures r.Ok? ==> r.value.Keys == KeysOf(messages[0])
    ensures r.Ok? ==> forall i: nat :: IsLastWithKey(messages[0], i) ==>
                        messages[0][i].0 in r.value && r.value[messages[0][i].0] == messages[0][i].1
  {
    if messages == [] then Err(IndexError)
    else
      LastRecordsWin(messages[0]);
      Ok(Comprehension(messages[0]))
  }

  // ---------------------------------------------------------------------------
  // The name of the output file

  /** Where "_new" goes: five characters before the end, or at the start of a shorter name. */
  function InsertionPoint(name: string): nat
  {
    if |name| < 5 then 0 else |name| - 5
  }

  /** `file_name[:-5] + "_new" + file_name[-5:]`. */
  function NewName(name: string): (r: string)
    ensures |r| == |name| + 4
    ensures r[InsertionPoint(name)..InsertionPoint(name) + 4] == "_new"
    ensures r[..InsertionPoint(name)] == name[..InsertionPoint(name)]
    ensures r[InsertionPoint(name) + 4..] == name[InsertionPoint(name)..]
  {
    SliceTo(name, -5) + "_new" + SliceFrom(name, -5)
  }

  /** Taking the four characters back out, at the point NewName put them. */
  function OldName(r: string): string
  {
    var p := if |r| < 9 then 0 else |r| - 9;
    if |r| < p + 4 then r else r[..p] + r[p + 4..]
  }

  /** Renaming loses nothing: the input name can be read back from the new one. */
  lemma NewNameRoundTrip(name: string)
    ensures OldName(NewName(name)) == name
  {
    var p := InsertionPoint(name);
    var r := NewName(name);
    assert name == name[..p] + name[p..];
  }

  /** A name shorter than five characters gets "_new" in front of it. */
  lemma ShortNameGetsPrefix(name: string)
    requires |name| < 5
    ensures NewName(name) == "_new" + name
  {
  }

  lemma NewNameExample()
    ensures NewName("foo.json") == "foo_new.json"
  {
  }

  /** `os.path.join(path, f"{name}_new{end}")`, where `path, file_name = os.path.split(path_to_file)`. */
  function OutputPath(pathToFile: string): (out: string)
    ensures PosixSplit(out) == (PosixSplit(pathToFile).0, NewName(PosixSplit(pathToFile).1))
  {
    var (head, tail) := PosixSplit(pathToFile);
    var newName := NewName(tail);
    assert '/' !in newName by {
      var p := InsertionPoint(tail);
      assert newName == tail[..p] + "_new" + tail[p..];
      assert '/' !in tail[..p] && '/' !in tail[p..];
    }
    JoinThenSplit(head, newName);
    PosixJoin(head, newName)
  }

  /**
   * `optimize_json(path_to_file)` on a document whose `messages` list is given:
   * the path written and the dictionary written there, or IndexError before
   * anything is written.
   */
  function OptimizeJson<K(==), V>(pathToFile: string, messages: seq<seq<(K, V)>>): (r: Result<(string, map<K, V>)>)
    ensures r.Err? <==> messages == []
    ensures r.Ok? ==> PosixSplit(r.value.0).0 == PosixSplit(pathToFile).0
    ensures r.Ok? ==> PosixSplit(r.value.0).1 == NewName(PosixSplit(pathToFile).1)
    ensures r.Ok? ==> r.value.1.Keys == KeysOf(messages[0])
    ensures r.Ok? ==> Flatten(messages) == Ok(r.value.1)
  {
    match Flatten(messages)
    case Err(e) => Err(e)
    case Ok(flat) => Ok((OutputPath(pathToFile), flat))
  }
}
