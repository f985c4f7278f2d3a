/** The recent-command history kept in `recent_query.json`
    (`update_history`, server.py): a move-to-front list of at most ten
    commands, most recent first. */
module History {
  import opened Storage

  /** How many commands the history keeps. */
  const MaxHistory: nat := 10

  predicate NoDuplicates(s: seq<string>) {
    forall i, j :: 0 <= i < j < |s| ==> s[i] != s[j]
  }

  /** `list.remove(c)` when `c` is in the list, and no change otherwise:
      the first occurrence of `c` is deleted and nothing else moves. */
  function RemoveFirst(h: seq<string>, c: string): (r: seq<string>)
    ensures c !in h ==> r == h
    ensures c in h ==> |r| == |h| - 1
    ensures forall x :: x in r ==> x in h
  {
    if h == [] then []
    else if h[0] == c then h[1..]
    else [h[0]] + RemoveFirst(h[1..], c)
  }

  /** As multisets, `RemoveFirst` takes away one copy of `c` and keeps every
      other entry. */
  lemma {:induction false} RemoveFirstMultiset(h: seq<string>, c: string)
    ensures multiset(RemoveFirst(h, c)) == multiset(h) - multiset{c}
  {
    if h != [] {
      assert h == [h[0]] + h[1..];
      if h[0] != c {
        RemoveFirstMultiset(h[1..], c);
      }
    }
  }

  /** The history list after `update_history(c)`: `c` is moved (or added) to
      the front and the list is cut to its first ten entries. */
  function Recent(h: seq<string>, c: string): (r: seq<string>)
    ensures 1 <= |r| <= MaxHistory && r[0] == c
  {
    var moved := [c] + RemoveFirst(h, c);
    if |moved| > MaxHistory then moved[..MaxHistory] else moved
  }

  /** `RemoveFirst` deletes exactly the first occurrence: the entries before
      it and after it keep their order. */
  lemma {:induction false} RemoveFirstAt(h: seq<string>, c: string, i: nat)
    requires i < |h| && h[i] == c
    requires forall j :: 0 <= j < i ==> h[j] != c
    ensures RemoveFirst(h, c) == h[..i] + h[i + 1..]
  {
    if i == 0 {
      assert h[..0] + h[1..] == h[1..];
    } else {
      var t := h[1..];
      assert h[0] != c;
      assert forall j :: 0 <= j < i - 1 ==> t[j] == h[j + 1];
      RemoveFirstAt(t, c, i - 1);
      assert RemoveFirst(h, c) == [h[0]] + (t[..i - 1] + t[i..]);
      assert t[..i - 1] == h[1..i] && t[i..] == h[i + 1..];
      assert [h[0]] + (h[1..i] + h[i + 1..]) == h[..i] + h[i + 1..];
    }
  }

  /** On a history without duplicates, `RemoveFirst` removes every copy of
      `c` and leaves a history without duplicates. */
  lemma {:induction false} RemoveFirstDistinct(h: seq<string>, c: string)
    requires NoDuplicates(h)
    ensures NoDuplicates(RemoveFirst(h, c))
    ensures c !in RemoveFirst(h, c)
  {
    if h != [] {
      assert NoDuplicates(h[1..]) by {
        forall i, j | 0 <= i < j < |h[1..]| ensures h[1..][i] != h[1..][j] {
          assert h[1..][i] == h[i + 1] && h[1..][j] == h[j + 1];
        }
      }
      if h[0] == c {
        assert forall k :: 0 < k < |h| ==> h[k] != h[0];
        assert c !in h[1..];
      } else {
        RemoveFirstDistinct(h[1..], c);
        var t := RemoveFirst(h[1..], c);
        assert h[0] !in t by {
          assert forall k :: 0 < k < |h| ==> h[k] != h[0];
          assert h[0] !in h[1..];
          assert h[0] !in h[1..];
        }
        var r := [h[0]] + t;
        forall i, j | 0 <= i < j < |r| ensures r[i] != r[j] {
          if i == 0 {
            assert r[j] == t[j - 1];
          } else {
            assert r[i] == t[i - 1] && r[j] == t[j - 1];
          }
        }
      }
    }
  }

  /** Moving a command to the front keeps a duplicate-free history free of
      duplicates, and the command then appears exactly once: at the front. */
  lemma RecentDistinct(h: seq<string>, c: string)
    requires NoDuplicates(h)
    ensures NoDuplicates(Recent(h, c))
    ensures forall i :: 0 < i < |Recent(h, c)| ==> Recent(h, c)[i] != c
  {
    RemoveFirstDistinct(h, c);
    var t := RemoveFirst(h, c);
    var r := Recent(h, c);
    forall i | 0 < i < |r| ensures r[i] != c && r[i] == t[i - 1] {
      assert r[i] == ([c] + t)[i];
    }
    forall i, j | 0 <= i < j < |r| ensures r[i] != r[j] {
      if i > 0 {
        assert r[i] == t[i - 1] && r[j] == t[j - 1];
      }
    }
  }

  /** The entries behind the front are the old history with `c` taken out,
      in their old order, cut at the tail so that at most ten remain. */
  lemma RecentKeepsOrder(h: seq<string>, c: string)
    ensures |Recent(h, c)| == if |RemoveFirst(h, c)| + 1 <= MaxHistory then |RemoveFirst(h, c)| + 1 else MaxHistory
    ensures Recent(h, c)[1..] == RemoveFirst(h, c)[..|Recent(h, c)| - 1]
  {
    var t := RemoveFirst(h, c);
    var r := Recent(h, c);
    assert r == ([c] + t)[..|r|];
    assert r[1..] == t[..|r| - 1];
  }

  /** Running the same command twice in a row leaves the history as the
      first run left it: one entry for it, at the front. */
  lemma RecentRepeat(h: seq<string>, c: string)
    ensures Recent(Recent(h, c), c) == Recent(h, c)
  {
    var r := Recent(h, c);
    assert r[0] == c;
    assert RemoveFirst(r, c) == r[1..];
    assert [c] + r[1..] == r;
  }

  /** `s` read back to front. */
  function Reverse(s: seq<string>): (r: seq<string>)
    ensures |r| == |s|
    ensures forall i :: 0 <= i < |s| ==> r[i] == s[|s| - 1 - i]
  {
    if s == [] then [] else [s[|s| - 1]] + Reverse(s[..|s| - 1])
  }

  /** The history list after the commands `cmds` were run, oldest first,
      starting from no history at all. */
  function Replay(cmds: seq<string>): seq<string>
  {
    if cmds == [] then [] else Recent(Replay(cmds[..|cmds| - 1]), cmds[|cmds| - 1])
  }

  function Min(a: int, b: int): int { if a <= b then a else b }

  /** After any number of distinct commands, the history is the ten most
      recent of them, most recent first (eleven distinct commands leave the
      last ten). */
  lemma {:induction false} ReplayDistinct(cmds: seq<string>)
    requires NoDuplicates(cmds)
    ensures Replay(cmds) == Reverse(cmds)[..Min(MaxHistory, |cmds|)]
  {
    if cmds != [] {
      var cs, c := cmds[..|cmds| - 1], cmds[|cmds| - 1];
      assert NoDuplicates(cs);
      ReplayDistinct(cs);
      var rv := Reverse(cs);
      var prev := Replay(cs);
      assert prev == rv[..Min(MaxHistory, |cs|)];
      assert Reverse(cmds) == [c] + rv;
      assert c !in prev by {
        forall k | 0 <= k < |prev| ensures prev[k] != c {
          assert prev[k] == rv[k] == cs[|cs| - 1 - k];
        }
      }
      assert RemoveFirst(prev, c) == prev;
      var r := Replay(cmds);
      assert r == Recent(prev, c);
      var want := ([c] + rv)[..Min(MaxHistory, |cmds|)];
      assert |r| == |want|;
      forall i | 0 <= i < |r| ensures r[i] == want[i] {
        if i > 0 {
          assert r[i] == prev[i - 1] == rv[i - 1];
        }
      }
    }
  }

  /** `update_history(c)` on the stored file. A missing or unreadable file
      counts as an empty history, so it ends up holding just `[c]`; a
      readable history gets `c` moved to its front. A file of another shape
      makes the list operations raise before the file is opened for
      writing, and so does a failing `open`: the file stays as it was. A
      write that fails after `open` has truncated the file leaves it
      unreadable. Every error is only logged. */
  function AfterUpdate(f: Stored<seq<string>>, c: string, w: Write): (g: Stored<seq<string>>)
    ensures w.Written? && (f.Absent? || f.Malformed?) ==> g == Valid([c])
    ensures w.Written? && f.Valid? ==> g == Valid(Recent(f.value, c))
    ensures w.OpenFailed? || f.Foreign? ==> g == f
    ensures w.WriteFailed? && !f.Foreign? ==> g == Malformed
  {
    match f
    case Foreign(_) => f
    case Valid(h) => Wrote(f, w, Recent(h, c))
    case _ => Wrote(f, w, [c])
  }

  /** The body of `GET /history`: the stored list, or the empty list when
      the file is missing or unreadable; `None` stands for a file of another
      shape, which the endpoint returns as parsed. */
  function Listed(f: Stored<seq<string>>): (r: Option<seq<string>>)
    ensures f.Foreign? <==> r.None?
    ensures f.Valid? ==> r == Some(f.value)
    ensures f.Absent? || f.Malformed? ==> r == Some([])
  {
    match f
    case Absent => Some([])
    case Malformed => Some([])
    case Foreign(_) => None
    case Valid(h) => Some(h)
  }

  /** After a successful update of a readable or missing file, the history
      endpoint lists the command first and at most ten entries. */
  lemma ListedAfterUpdate(f: Stored<seq<string>>, c: string)
    requires !f.Foreign?
    ensures Listed(AfterUpdate(f, c, Written)).Some?
    ensures var l := Listed(AfterUpdate(f, c, Written)).value; 1 <= |l| <= MaxHistory && l[0] == c
  {
  }

  /** An update whose write fails after truncating the file loses the whole
      history: the endpoint then lists nothing, and the next successful
      update starts over from the command alone. */
  lemma TruncatedHistory(f: Stored<seq<string>>, c: string, next: string)
    requires !f.Foreign?
    ensures Listed(AfterUpdate(f, c, WriteFailed)) == Some([])
    ensures AfterUpdate(AfterUpdate(f, c, WriteFailed), next, Written) == Valid([next])
  {
  }

  /** `update_history` on the list itself: the membership test, `remove`,
      `insert(0, c)` and the cut to ten, one after the other. */
  method UpdateHistory(history: seq<string>, command: string) returns (h: seq<string>)
    ensures h == Recent(history, command)
  {
    h := history;
    var i := 0;
    while i < |h| && h[i] != command
      invariant 0 <= i <= |h|
      invariant forall j :: 0 <= j < i ==> h[j] != command
    {
      i := i + 1;
    }
    if i < |h| {
      RemoveFirstAt(h, command, i);
      h := h[..i] + h[i + 1..];
    }
    h := [command] + h;
    if |h| > MaxHistory {
      h := h[..MaxHistory];
    }
  }

  /** The file `recent_query.json`, which `update_history` rewrites. */
  class HistoryFile {
    var stored: Stored<seq<string>>

    constructor (initial: Stored<seq<string>>)
      ensures stored == initial
    {
      stored := initial;
    }

    /** `update_history(command)`; `w` says how the final write ends. */
    method Update(command: string, w: Write)
      modifies this
      ensures stored == AfterUpdate(old(stored), command, w)
    {
      if stored.Foreign? {
        return;
      }
      var history: seq<string> := [];
      if stored.Valid? {
        history := stored.value;
      }
      assert Recent([], command) == [command] by {
        assert RemoveFirst([], command) == [];
        assert [command] + [] == [command];
      }
      history := UpdateHistory(history, command);
      match w {
        case Written => stored := Valid(history);
        case OpenFailed =>
        case WriteFailed => stored := Malformed;
      }
    }
  }
}
