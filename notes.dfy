/** The agent's session memory (agent_brain.py): the note tools `save_note`
    and `read_notes` over the file `session_memory.json`, the server's
    `clear_memory` that deletes that file before each run (server.py), and
    the `variables` that `create_agent` hands to the agent. */
module AgentBrain {
  import opened Storage

  /** The notes: a JSON object from keys to saved values. */
  type Notes = map<string, string>

  const SavedPrefix := "✓ Saved to memory: "
  const SaveErrorPrefix := "✗ Error saving: "
  const ReadErrorPrefix := "✗ Error reading: "
  const NothingSaved := "Memory is empty. No data saved yet."
  const EmptyMemory := "Memory is empty."
  const ContentsHeader := "Memory Contents:\n"

  /** The memory file after `save_note(key, value)`. A missing or unreadable
      file counts as no notes; a readable object gets `key` set. A file that
      holds something other than an object makes the item assignment raise
      before the file is opened for writing, and so does a failing `open`:
      the file stays as it was. A write that fails after `open` has
      truncated the file leaves it unreadable. */
  function AfterSave(f: Stored<Notes>, key: string, value: string, w: Write): (g: Stored<Notes>)
    ensures w.OpenFailed? || f.Foreign? ==> g == f
    ensures w.Written? && !f.Foreign? ==> g.Valid? && key in g.value && g.value[key] == value
    ensures w.WriteFailed? && !f.Foreign? ==> g == Malformed
  {
    match f
    case Foreign(_) => f
    case Valid(notes) => Wrote(f, w, notes[key := value])
    case _ => Wrote(f, w, map[key := value])
  }

  /** Saving into a readable file keeps every other note as it was and adds
      no key but `key`. */
  lemma SaveKeepsOthers(notes: Notes, key: string, value: string)
    ensures var g := AfterSave(Valid(notes), key, value, Written);
      && g.Valid? && g.value.Keys == notes.Keys + {key}
      && forall k :: k in notes && k != key ==> g.value[k] == notes[k]
  {
  }

  /** Saving into a missing or unreadable file leaves a file with that one
      note only. */
  lemma SaveStartsOver(f: Stored<Notes>, key: string, value: string)
    requires f.Absent? || f.Malformed?
    ensures AfterSave(f, key, value, Written) == Valid(map[key := value])
    ensures AfterSave(f, key, value, Written).value.Keys == {key}
  {
  }

  /** What `save_note` returns: the confirmation when the note was written,
      else the error's text after the error mark. `error` is the text of
      whatever the attempt raised. */
  function SaveReply(f: Stored<Notes>, key: string, value: string, w: Write, error: string): (reply: string)
    ensures w.Written? && !f.Foreign? ==> reply == SavedPrefix + key + " = " + value
    ensures !w.Written? || f.Foreign? ==> reply == SaveErrorPrefix + error
  {
    if w.Written? && !f.Foreign? then SavedPrefix + key + " = " + value else SaveErrorPrefix + error
  }

  /** `save_note`'s answer is honest about what it did: a reply that starts
      with the check mark means the note is now stored. Any other reply
      means the file was left as it was, unless the write failed after
      truncating it, which leaves the file unreadable. */
  lemma SaveReplyHonest(f: Stored<Notes>, key: string, value: string, w: Write, error: string)
    ensures var reply, g := SaveReply(f, key, value, w, error), AfterSave(f, key, value, w);
      && reply != []
      && (reply[0] == '✓' ==> g.Valid? && key in g.value && g.value[key] == value)
      && (reply[0] != '✓' ==> g == f || g == Malformed)
      && (reply[0] != '✓' && g != f ==> w.WriteFailed? && g == Malformed)
  {
    var reply := SaveReply(f, key, value, w, error);
    if w.Written? && !f.Foreign? {
      assert reply[0] == SavedPrefix[0] == '✓';
    } else {
      assert reply[0] == SaveErrorPrefix[0] != '✓';
    }
  }

  /** A save that fails after truncating the file loses every note: the
      next `read_notes` reports a read error, and the next successful save
      starts again from its own note alone. */
  lemma TruncatedSaveLosesNotes(notes: Notes, key: string, value: string, next: string, nextValue: string, dump: string, error: string)
    ensures AfterSave(Valid(notes), key, value, WriteFailed) == Malformed
    ensures ReadNotes(AfterSave(Valid(notes), key, value, WriteFailed), dump, error) == ReadErrorPrefix + error
    ensures AfterSave(AfterSave(Valid(notes), key, value, WriteFailed), next, nextValue, Written) == Valid(map[next := nextValue])
  {
  }

  /** What `read_notes` returns. `dump` is the `json.dumps` rendering of the
      file's content, and `error` the text of what reading it raised. The
      file is empty when it parses to a falsy value: an empty object, or a
      value of another shape that Python treats as false. */
  function ReadNotes(f: Stored<Notes>, dump: string, error: string): (reply: string)
    ensures f.Absent? ==> reply == NothingSaved
    ensures f.Malformed? ==> reply == ReadErrorPrefix + error
    ensures f.Valid? ==> reply == if f.value == map[] then EmptyMemory else ContentsHeader + dump
    ensures f.Foreign? ==> reply == if f.truthy then ContentsHeader + dump else EmptyMemory
  {
    match f
    case Absent => NothingSaved
    case Malformed => ReadErrorPrefix + error
    case Foreign(truthy) => if truthy then ContentsHeader + dump else EmptyMemory
    case Valid(notes) => if notes == map[] then EmptyMemory else ContentsHeader + dump
  }

  /** The three answers of `read_notes` about a readable file can be told
      apart: a missing file, an empty one, and one with notes give three
      different texts. */
  lemma ReadNotesDistinct(notes: Notes, dump: string, error: string)
    requires notes != map[]
    ensures ReadNotes(Absent, dump, error) != ReadNotes(Valid(map[]), dump, error)
    ensures ReadNotes(Valid(map[]), dump, error) != ReadNotes(Valid(notes), dump, error)
    ensures ReadNotes(Absent, dump, error) != ReadNotes(Valid(notes), dump, error)
    ensures ReadNotes(Valid(notes), dump, error)[..|ContentsHeader|] == ContentsHeader
  {
    assert NothingSaved[7] != ContentsHeader[7];
    assert EmptyMemory[7] != ContentsHeader[7];
    assert |NothingSaved| != |EmptyMemory|;
  }

  /** A note that was saved is visible to the next `read_notes`. */
  lemma ReadAfterSave(f: Stored<Notes>, key: string, value: string, dump: string, error: string)
    requires !f.Foreign?
    ensures ReadNotes(AfterSave(f, key, value, Written), dump, error) == ContentsHeader + dump
  {
    var g := AfterSave(f, key, value, Written);
    assert key in g.value;
  }

  /** One call the agent makes to its `save_note` tool while it runs:
      the note, how writing the file ends, and the error's text when it
      fails. */
  datatype Save = Save(key: string, value: string, write: Write, error: string)

  /** The memory file after the agent's `save_note` calls, in the order it
      made them. */
  function AfterSaves(f: Stored<Notes>, saves: seq<Save>): Stored<Notes>
    decreases |saves|
  {
    if saves == [] then f
    else
      var s := saves[|saves| - 1];
      AfterSave(AfterSaves(f, saves[..|saves| - 1]), s.key, s.value, s.write)
  }

  /** No save after the `i`-th truncated the file and then failed. */
  predicate IntactAfter(saves: seq<Save>, i: int)
  {
    forall j :: 0 <= j < |saves| && i < j ==> !saves[j].write.WriteFailed?
  }

  /** Saves on a file that holds notes (or none yet) never give it another
      shape. A written save that no later truncating failure follows leaves
      a readable file; saves that all failed to open leave it as it was;
      and a last save that failed after truncating leaves it unreadable. */
  lemma {:induction false} SavesKeepShape(f: Stored<Notes>, saves: seq<Save>)
    requires !f.Foreign?
    ensures !AfterSaves(f, saves).Foreign?
    ensures (exists i :: 0 <= i < |saves| && saves[i].write.Written? && IntactAfter(saves, i)) ==> AfterSaves(f, saves).Valid?
    ensures (forall i :: 0 <= i < |saves| ==> saves[i].write.OpenFailed?) ==> AfterSaves(f, saves) == f
    ensures saves != [] && saves[|saves| - 1].write.WriteFailed? ==> AfterSaves(f, saves) == Malformed
    decreases |saves|
  {
    if saves != [] {
      var n := |saves| - 1;
      var prefix := saves[..n];
      SavesKeepShape(f, prefix);
      if exists i :: 0 <= i < |saves| && saves[i].write.Written? && IntactAfter(saves, i) {
        var i :| 0 <= i < |saves| && saves[i].write.Written? && IntactAfter(saves, i);
        if i < n {
          assert prefix[i] == saves[i];
          assert IntactAfter(prefix, i) by {
            forall j | i < j < |prefix| ensures !prefix[j].write.WriteFailed? {
              assert prefix[j] == saves[j];
            }
          }
          assert !saves[n].write.WriteFailed?;
        }
      }
      if forall i :: 0 <= i < |saves| ==> saves[i].write.OpenFailed? {
        assert forall i :: 0 <= i < n ==> prefix[i] == saves[i];
      }
    }
  }

  /** After a run, a key holds the value of the last save of it that was
      written, provided no later save truncated the file and failed. */
  lemma {:induction false} LastSaveWins(f: Stored<Notes>, saves: seq<Save>, i: nat)
    requires !f.Foreign?
    requires i < |saves| && saves[i].write.Written? && IntactAfter(saves, i)
    requires forall j :: i < j < |saves| && saves[j].write.Written? ==> saves[j].key != saves[i].key
    ensures AfterSaves(f, saves).Valid?
    ensures saves[i].key in AfterSaves(f, saves).value
    ensures AfterSaves(f, saves).value[saves[i].key] == saves[i].value
    decreases |saves|
  {
    var n := |saves| - 1;
    var prefix := saves[..n];
    SavesKeepShape(f, prefix);
    if i < n {
      assert prefix[i] == saves[i];
      forall j | i < j < |prefix|
        ensures !prefix[j].write.WriteFailed?
        ensures prefix[j].write.Written? ==> prefix[j].key != prefix[i].key
      {
        assert prefix[j] == saves[j];
      }
      LastSaveWins(f, prefix, i);
      assert !saves[n].write.WriteFailed?;
    }
  }

  /** A note that no written save names is left as it was, provided no save
      truncated the file and failed. */
  lemma {:induction false} UntouchedNote(notes: Notes, saves: seq<Save>, k: string)
    requires IntactAfter(saves, -1)
    requires forall j :: 0 <= j < |saves| && saves[j].write.Written? ==> saves[j].key != k
    ensures AfterSaves(Valid(notes), saves).Valid?
    ensures k in AfterSaves(Valid(notes), saves).value <==> k in notes
    ensures k in notes ==> AfterSaves(Valid(notes), saves).value[k] == notes[k]
    decreases |saves|
  {
    if saves != [] {
      var n := |saves| - 1;
      var prefix := saves[..n];
      assert forall j :: 0 <= j < n ==> prefix[j] == saves[j];
      assert !saves[n].write.WriteFailed?;
      UntouchedNote(notes, prefix, k);
    }
  }

  /** The memory file after `clear_memory`: an existing file is deleted
      unless deleting it fails (`removed` false), which is only logged. */
  function AfterClear(f: Stored<Notes>, removed: bool): (g: Stored<Notes>)
    ensures removed ==> g.Absent?
    ensures !removed ==> g == f
  {
    if f.Absent? || !removed then f else Absent
  }

  /** A cleared memory reads as never written. */
  lemma ReadAfterClear(f: Stored<Notes>, dump: string, error: string)
    ensures ReadNotes(AfterClear(f, true), dump, error) == NothingSaved
  {
  }

  /** The file `session_memory.json`. */
  class MemoryFile {
    var stored: Stored<Notes>

    constructor (initial: Stored<Notes>)
      ensures stored == initial
    {
      stored := initial;
    }

    /** `clear_memory()`; `removed` says whether `os.remove` succeeds. */
    method Clear(removed: bool)
      modifies this
      ensures stored == AfterClear(old(stored), removed)
    {
      if !stored.Absent? && removed {
        stored := Absent;
      }
    }

    /** `save_note(key, value)`: load the object (an unreadable file counts as
        none), set `key`, write it back. `w` says how the write ends; `error`
        is the text of what was raised when it fails. */
    method SaveNote(key: string, value: string, w: Write, error: string) returns (reply: string)
      modifies this
      ensures stored == AfterSave(old(stored), key, value, w)
      ensures reply == SaveReply(old(stored), key, value, w, error)
    {
      if stored.Foreign? {
        return SaveErrorPrefix + error;
      }
      var data: Notes := map[];
      if stored.Valid? {
        data := stored.value;
      }
      data := data[key := value];
      match w {
        case Written =>
          stored := Valid(data);
          reply := SavedPrefix + key + " = " + value;
        case OpenFailed =>
          reply := SaveErrorPrefix + error;
        case WriteFailed =>
          stored := Malformed;
          reply := SaveErrorPrefix + error;
      }
    }

    /** The agent's `save_note` calls, one after the other. */
    method SaveAll(saves: seq<Save>)
      modifies this
      ensures stored == AfterSaves(old(stored), saves)
    {
      var i := 0;
      while i < |saves|
        invariant 0 <= i <= |saves|
        invariant stored == AfterSaves(old(stored), saves[..i])
      {
        var reply := SaveNote(saves[i].key, saves[i].value, saves[i].write, saves[i].error);
        assert saves[..i + 1][..i] == saves[..i];
        i := i + 1;
      }
      assert saves[..|saves|] == saves;
    }

    /** `read_notes()`. */
    function Read(dump: string, error: string): (reply: string)
      reads this
      ensures stored.Absent? <==> reply == NothingSaved
    {
      ReadNotesAbsent(stored, dump, error);
      ReadNotes(stored, dump, error)
    }
  }

  /** Only a missing file gives the "no data saved yet" answer. */
  lemma ReadNotesAbsent(f: Stored<Notes>, dump: string, error: string)
    ensures f.Absent? <==> ReadNotes(f, dump, error) == NothingSaved
  {
    var reply := ReadNotes(f, dump, error);
    if f.Malformed? {
      assert reply[0] == ReadErrorPrefix[0] != NothingSaved[0];
    } else if f.Valid? || f.Foreign? {
      if reply == EmptyMemory {
        assert |EmptyMemory| != |NothingSaved|;
      } else {
        assert reply[7] == ContentsHeader[7] != NothingSaved[7];
      }
    }
  }

  /** The `variables` of `create_agent`: the app guide's instructions under
      `app_card_instructions` when they are given and non-empty, and nothing
      otherwise. */
  method AgentVariables(appCardInstructions: Option<string>) returns (variables: map<string, string>)
    ensures "app_card_instructions" in variables <==> appCardInstructions.Some? && appCardInstructions.value != []
    ensures "app_card_instructions" in variables ==> variables["app_card_instructions"] == appCardInstructions.value
    ensures variables.Keys <= {"app_card_instructions"}
  {
    variables := map[];
    if appCardInstructions.Some? && appCardInstructions.value != [] {
      variables := variables["app_card_instructions" := appCardInstructions.value];
    }
  }
}
