/** The interactive loop of bucket_util.js: the inventory and the `running`
    flag it keeps, one turn of `while (running)`, and a whole session over a
    script of typed lines. What a turn does is defined once, as the function
    `Turn`; the class `Repl` carries it out in place. */
module Controller {
  import opened Storage
  import opened Inventory
  import opened Commands
  import Menu
  import Emptying

  /** Why the loop ended abnormally: an exception that escaped it. */
  datatype Fault =
    | UndefinedBucket                  // the id matched no entry, and its fields were read
    | ListBucketsFailed(error: Error)  // the enumeration of a refresh threw

  /** The state a turn leaves behind, with the calls it made. */
  datatype Outcome = Outcome(buckets: seq<Bucket>, running: bool, fault: Option<Fault>, calls: seq<Call>)

  /** One line typed at the prompt, with the service as it answers during
      that turn. */
  datatype Entry = Entry(line: string, adapter: Adapter)

  /** The "delete" guard: a bucket whose count is positive is refused; zero
      and the unknown count -1 pass. */
  predicate MayDelete(bucket: Bucket)
  {
    !(bucket.numFiles > 0)
  }

  /** The "list" and "empty" guard: only a count of exactly zero is refused. */
  predicate MayListOrEmpty(bucket: Bucket)
  {
    bucket.numFiles != 0
  }

  /** What every inventory the loop holds satisfies. */
  ghost predicate Sound(buckets: seq<Bucket>)
  {
    IdsAscending(buckets) &&
    forall b | b in buckets :: b.id >= 1 && b.numFiles >= -1 && !Excluded(b.name)
  }

  /** A sound inventory, and a loop that has stopped if it faulted. */
  ghost predicate Settled(o: Outcome)
  {
    Sound(o.buckets) && (o.fault.Some? ==> !o.running)
  }

  /** A settled state in which the loop runs only while there is something
      to work on. */
  ghost predicate Consistent(o: Outcome)
  {
    Settled(o) && (o.running ==> o.buckets != [])
  }

  /** Every call that deletes a bucket or deletes objects addresses an entry
      of `buckets` that the command's guard lets through. */
  ghost predicate Guarded(calls: seq<Call>, buckets: seq<Bucket>)
  {
    forall k | 0 <= k < |calls| ::
      (calls[k].DeleteBucket? ==>
        exists b | b in buckets :: b.name == calls[k].bucket && MayDelete(b)) &&
      (calls[k].DeleteObjects? ==>
        exists b | b in buckets :: b.name == calls[k].bucket && MayListOrEmpty(b))
  }

  /** No call deletes or empties a bucket whose name carries the exclusion
      marker. */
  ghost predicate Protected(calls: seq<Call>)
  {
    forall k | 0 <= k < |calls| ::
      (calls[k].DeleteBucket? || calls[k].DeleteObjects?) ==> !Excluded(calls[k].bucket)
  }

  /** `buckets = await readBuckets(s3)`: the start-up read and the "refresh"
      command. A failed enumeration is not caught: the loop ends. */
  function Refreshed(buckets: seq<Bucket>, adapter: Adapter): Outcome
  {
    match adapter.listBuckets
    case Err(e) => Outcome(buckets, false, Some(ListBucketsFailed(e)), [ListBuckets])
    case Ok(names) =>
      Outcome(Inventory.Inventory(names, adapter.listObjects), true, None,
              [ListBuckets] + CountCalls(Kept(names)))
  }

  predicate IsTargeted(command: Command)
  {
    command.Delete? || command.List? || command.Empty?
  }

  /** "delete", "list" and "empty": find the entry, check its count, call the
      service; a failure of the call is caught and reported, so the loop goes
      on. */
  function Targeted(buckets: seq<Bucket>, command: Command, adapter: Adapter): Outcome
    requires IsTargeted(command)
  {
    match FindIndex(buckets, command.target)
    case None => Outcome(buckets, false, Some(UndefinedBucket), [])
    case Some(i) =>
      var bucket := buckets[i];
      if command.Delete? then
        if !MayDelete(bucket) then Outcome(buckets, true, None, [])
        else
          var remaining := if adapter.deleteBucket(bucket.name).None?
                           then RemoveId(buckets, bucket.id) else buckets;
          Outcome(remaining, true, None, [DeleteBucket(bucket.name)])
      else if command.List? then
        Outcome(buckets, true, None, if MayListOrEmpty(bucket) then [ListObjects(bucket.name)] else [])
      else if !MayListOrEmpty(bucket) then Outcome(buckets, true, None, [])
      else
        var effect := Emptying.EmptyBucket(bucket.name, adapter);
        var updated := if effect.error.None? then buckets[i := bucket.(numFiles := 0)] else buckets;
        Outcome(updated, true, None, effect.calls)
  }

  /** What a parsed command does to a non-empty inventory. */
  function Execute(buckets: seq<Bucket>, command: Command, adapter: Adapter): Outcome
  {
    match command
    case Help => Outcome(buckets, true, None, [])
    case Unrecognised => Outcome(buckets, true, None, [])
    case Quit => Outcome(buckets, false, None, [])
    case Refresh => Refreshed(buckets, adapter)
    case _ => Targeted(buckets, command, adapter)
  }

  /** The test at the top of `while (running)`: with no bucket left the loop
      stops before it prints a menu or reads a line. */
  function Settle(o: Outcome): (s: Outcome)
    ensures s.running <==> o.running && o.buckets != []
    ensures s.buckets == o.buckets && s.fault == o.fault && s.calls == o.calls
  {
    if o.running && o.buckets == [] then o.(running := false) else o
  }

  /** The body of one turn on a non-empty inventory: read a line and carry it
      out. */
  function Turn(buckets: seq<Bucket>, line: string, adapter: Adapter): Outcome
  {
    Execute(buckets, ParseCommand(line), adapter)
  }

  /** A turn taken while the loop still runs, followed by the test of the
      next iteration, its calls appended to the earlier ones; a stopped loop
      reads no more lines. */
  function Resume(o: Outcome, entry: Entry): Outcome
  {
    if !o.running then o
    else
      var next := Settle(Turn(o.buckets, entry.line, entry.adapter));
      next.(calls := o.calls + next.calls)
  }

  /** The session from `o` on, over the typed lines in order. */
  function Replay(o: Outcome, entries: seq<Entry>): Outcome
  {
    if entries == [] then o
    else Resume(Replay(o, entries[..|entries| - 1]), entries[|entries| - 1])
  }

  /** `readBuckets` as the start-up read and the "refresh" command use it. */
  method Reload(buckets: seq<Bucket>, adapter: Adapter) returns (o: Outcome)
    ensures o == Refreshed(buckets, adapter)
  {
    var result, calls := ReadBuckets(adapter);
    match result {
      case Err(e) =>
        o := Outcome(buckets, false, Some(ListBucketsFailed(e)), calls);
      case Ok(inventory) =>
        o := Outcome(inventory, true, None, calls);
    }
  }

  /** The `if` chain of one turn, on a parsed command. */
  method Exec(buckets: seq<Bucket>, command: Command, adapter: Adapter) returns (o: Outcome)
    ensures o == Execute(buckets, command, adapter)
  {
    match command {
      case Help => o := Outcome(buckets, true, None, []);
      case Unrecognised => o := Outcome(buckets, true, None, []);
      case Quit => o := Outcome(buckets, false, None, []);
      case Refresh => o := Reload(buckets, adapter);
      case _ => o := Act(buckets, command, adapter);
    }
  }

  /** The branches of "delete", "list" and "empty". */
  method Act(buckets: seq<Bucket>, command: Command, adapter: Adapter) returns (o: Outcome)
    requires IsTargeted(command)
    ensures o == Targeted(buckets, command, adapter)
  {
    var found := FindIndex(buckets, command.target);
    if found.None? {
      return Outcome(buckets, false, Some(UndefinedBucket), []);
    }
    var i := found.value;
    var bucket := buckets[i];
    if command.Delete? {
      if !MayDelete(bucket) {
        return Outcome(buckets, true, None, []);
      }
      var remaining := buckets;
      if adapter.deleteBucket(bucket.name).None? {
        remaining := RemoveId(buckets, bucket.id);
      }
      o := Outcome(remaining, true, None, [DeleteBucket(bucket.name)]);
    } else if command.List? {
      var calls := if MayListOrEmpty(bucket) then [ListObjects(bucket.name)] else [];
      o := Outcome(buckets, true, None, calls);
    } else {
      if !MayListOrEmpty(bucket) {
        return Outcome(buckets, true, None, []);
      }
      var first := Emptying.EmptyS3Directory(bucket.name, adapter);
      if first.error.Some? {
        return Outcome(buckets, true, None, first.calls);
      }
      var second := Emptying.EmptyS3DirectoryVersions(bucket.name, adapter);
      var updated := buckets;
      if second.error.None? {
        updated := buckets[i := bucket.(numFiles := 0)];
      }
      o := Outcome(updated, true, None, first.calls + second.calls);
    }
  }

  class Repl {
    var buckets: seq<Bucket>
    var running: bool
    var fault: Option<Fault>
    /** Every call made to the service so far, in order. */
    var trace: seq<Call>

    function State(): Outcome
      reads this
    {
      Outcome(buckets, running, fault, trace)
    }

    ghost predicate Valid()
      reads this
    {
      Consistent(State())
    }

    /** `if (buckets.length == 0) { running = false; break; }` */
    method StopWhenEmpty()
      modifies this
      ensures State() == Settle(old(State()))
    {
      if |buckets| == 0 {
        running := false;
      }
    }

    /** Start-up: read the inventory; a failed enumeration ends the program
        before the loop is entered, and so does an inventory with nothing in
        it. */
    constructor (adapter: Adapter)
      ensures Valid()
      ensures State() == Settle(Refreshed([], adapter))
    {
      var o := Reload([], adapter);
      StartSettled(adapter);
      buckets, running, fault, trace := o.buckets, o.running, o.fault, o.calls;
      new;
      StopWhenEmpty();
    }

    /** One turn of `while (running)`, then the test that opens the next one.
        Returns the menu it prints and the calls it makes. */
    method Step(line: string, adapter: Adapter) returns (menu: seq<string>, calls: seq<Call>)
      requires Valid() && running
      modifies this
      ensures Valid()
      ensures State() == Resume(old(State()), Entry(line, adapter))
      ensures calls == Turn(old(buckets), line, adapter).calls
      ensures menu == Menu.Render(old(buckets))
    {
      menu := Menu.DumpMenu(buckets);
      var o := Exec(buckets, ParseCommand(line), adapter);
      TurnSettles(buckets, line, adapter);
      calls := o.calls;
      buckets, running, fault, trace := o.buckets, o.running, o.fault, trace + o.calls;
      StopWhenEmpty();
    }
  }

  /** One more line of the script: the state after it is the replay of one
      more entry. */
  method Advance(repl: Repl, ghost start: Outcome, entries: seq<Entry>, k: nat)
    requires k < |entries|
    requires repl.Valid() && repl.running
    requires repl.State() == Replay(start, entries[..k])
    requires forall j | 0 <= j < k :: Replay(start, entries[..j]).running
    modifies repl
    ensures repl.Valid()
    ensures repl.State() == Replay(start, entries[..k + 1])
    ensures forall j | 0 <= j < k + 1 :: Replay(start, entries[..j]).running
  {
    ReplayNext(start, entries, k);
    var _, _ := repl.Step(entries[k].line, entries[k].adapter);
  }

  /** `while (running)` over a script of typed lines: take turns while the
      loop runs and lines remain. */
  method Run(repl: Repl, entries: seq<Entry>) returns (consumed: nat)
    requires repl.Valid()
    modifies repl
    ensures repl.Valid()
    ensures consumed <= |entries|
    ensures consumed < |entries| ==> !repl.running
    ensures consumed < |entries| ==> !Replay(old(repl.State()), entries[..consumed]).running
    ensures forall k | 0 <= k < consumed :: Replay(old(repl.State()), entries[..k]).running
    ensures repl.State() == Replay(old(repl.State()), entries)
  {
    ghost var start := repl.State();
    consumed := 0;
    while consumed < |entries| && repl.running
      invariant consumed <= |entries|
      invariant repl.Valid()
      invariant repl.State() == Replay(start, entries[..consumed])
      invariant forall k | 0 <= k < consumed :: Replay(start, entries[..k]).running
      decreases |entries| - consumed
    {
      Advance(repl, start, entries, consumed);
      consumed := consumed + 1;
    }
    if consumed < |entries| {
      ReplayHalted(start, entries, consumed);
    } else {
      assert entries[..consumed] == entries;
    }
  }

  /** The whole program over a script of typed lines: read the inventory,
      then run the loop. `consumed` is the number of lines the program reads:
      each of them is read while the loop runs, and a line is left unread
      only once the loop has stopped. */
  method Session(start: Adapter, entries: seq<Entry>) returns (repl: Repl, consumed: nat)
    ensures consumed <= |entries|
    ensures consumed < |entries| ==> !repl.running
    ensures consumed < |entries| ==> !Replay(Settle(Refreshed([], start)), entries[..consumed]).running
    ensures forall k | 0 <= k < consumed :: Replay(Settle(Refreshed([], start)), entries[..k]).running
    ensures repl.State() == Replay(Settle(Refreshed([], start)), entries)
  {
    repl := new Repl(start);
    consumed := Run(repl, entries);
  }

  /** The start-up read leaves a consistent state and deletes nothing. */
  lemma StartSettled(adapter: Adapter)
    ensures Settled(Refreshed([], adapter))
    ensures Consistent(Settle(Refreshed([], adapter)))
    ensures Protected(Refreshed([], adapter).calls)
  {
    if adapter.listBuckets.Ok? {
      InventoryAscending(adapter.listBuckets.value, adapter.listObjects);
    }
  }

  /** "empty" keeps a sound inventory sound. */
  lemma ResetKeepsSound(buckets: seq<Bucket>, i: nat)
    requires Sound(buckets) && i < |buckets|
    ensures Sound(buckets[i := buckets[i].(numFiles := 0)])
  {
    var updated := buckets[i := buckets[i].(numFiles := 0)];
    forall b | b in updated ensures b.id >= 1 && b.numFiles >= -1 && !Excluded(b.name) {
      var k :| 0 <= k < |updated| && updated[k] == b;
      assert k != i ==> b == buckets[k];
    }
  }

  /** A deleted entry leaves the others in place: filtering its id out drops
      exactly that entry, and the inventory stays sound. */
  lemma DropKeepsSound(buckets: seq<Bucket>, i: nat)
    requires Sound(buckets) && i < |buckets|
    ensures RemoveId(buckets, buckets[i].id) == buckets[..i] + buckets[i + 1..]
    ensures Sound(buckets[..i] + buckets[i + 1..])
  {
    RemoveIdAt(buckets, i);
    RemoveAtAscending(buckets, i);
  }

  /** Every command keeps the inventory sound, and one that faults stops the
      loop. */
  lemma ExecuteSettles(buckets: seq<Bucket>, command: Command, adapter: Adapter)
    requires Sound(buckets)
    ensures Settled(Execute(buckets, command, adapter))
  {
    if command.Refresh? {
      if adapter.listBuckets.Ok? {
        InventoryAscending(adapter.listBuckets.value, adapter.listObjects);
      }
    } else if IsTargeted(command) && FindIndex(buckets, command.target).Some? {
      var i := FindIndex(buckets, command.target).value;
      DropKeepsSound(buckets, i);
      ResetKeepsSound(buckets, i);
    }
  }

  lemma TurnSettles(buckets: seq<Bucket>, line: string, adapter: Adapter)
    requires Sound(buckets)
    ensures Settled(Turn(buckets, line, adapter))
    ensures Consistent(Settle(Turn(buckets, line, adapter)))
  {
    ExecuteSettles(buckets, ParseCommand(line), adapter);
  }

  /** Every deletion a command makes is one its guard allowed, on an entry
      of the inventory. */
  lemma ExecuteGuarded(buckets: seq<Bucket>, command: Command, adapter: Adapter)
    ensures Guarded(Execute(buckets, command, adapter).calls, buckets)
  {
    var calls := Execute(buckets, command, adapter).calls;
    if IsTargeted(command) && FindIndex(buckets, command.target).Some? {
      var bucket := buckets[FindIndex(buckets, command.target).value];
      forall k | 0 <= k < |calls|
        ensures calls[k].DeleteBucket? || calls[k].DeleteObjects? ==>
          calls[k].bucket == bucket.name &&
          (calls[k].DeleteBucket? ==> MayDelete(bucket)) &&
          (calls[k].DeleteObjects? ==> MayListOrEmpty(bucket))
      {
      }
    }
  }

  /** Whatever is typed and whatever the service answers, a turn on a sound
      inventory never deletes or empties a bucket that carries the exclusion
      marker. */
  lemma TurnProtected(buckets: seq<Bucket>, line: string, adapter: Adapter)
    requires Sound(buckets)
    ensures Protected(Turn(buckets, line, adapter).calls)
  {
    ExecuteGuarded(buckets, ParseCommand(line), adapter);
  }

  lemma ReplayNext(o: Outcome, entries: seq<Entry>, k: nat)
    requires k < |entries|
    ensures Replay(o, entries[..k + 1]) == Resume(Replay(o, entries[..k]), entries[k])
  {
    assert entries[..k + 1][..k] == entries[..k];
  }

  /** Once the loop has stopped, further lines change nothing. */
  lemma {:induction false} ReplayHalted(o: Outcome, entries: seq<Entry>, k: nat)
    requires k <= |entries| && !Replay(o, entries[..k]).running
    ensures Replay(o, entries) == Replay(o, entries[..k])
    decreases |entries|
  {
    if k == |entries| {
      assert entries[..k] == entries;
    } else {
      var init := entries[..|entries| - 1];
      assert init[..k] == entries[..k];
      ReplayHalted(o, init, k);
    }
  }

  /** A whole session keeps the inventory sound and never deletes or empties
      a protected bucket. */
  lemma {:induction false} ReplaySettled(o: Outcome, entries: seq<Entry>)
    requires Consistent(o) && Protected(o.calls)
    ensures Consistent(Replay(o, entries)) && Protected(Replay(o, entries).calls)
  {
    if entries != [] {
      var prev := Replay(o, entries[..|entries| - 1]);
      ReplaySettled(o, entries[..|entries| - 1]);
      var entry := entries[|entries| - 1];
      if prev.running {
        TurnSettles(prev.buckets, entry.line, entry.adapter);
        TurnProtected(prev.buckets, entry.line, entry.adapter);
        var next := Turn(prev.buckets, entry.line, entry.adapter);
        var all := prev.calls + next.calls;
        assert forall k | |prev.calls| <= k < |all| :: all[k] == next.calls[k - |prev.calls|];
      }
    }
  }

  /** The program as a whole: from start-up on, whatever lines are typed and
      whatever the service answers, no bucket whose name carries the
      exclusion marker is deleted or emptied. */
  lemma SessionProtected(start: Adapter, entries: seq<Entry>)
    ensures Consistent(Replay(Settle(Refreshed([], start)), entries))
    ensures Protected(Replay(Settle(Refreshed([], start)), entries).calls)
  {
    StartSettled(start);
    ReplaySettled(Settle(Refreshed([], start)), entries);
  }

  /** The loop is entered only when the enumeration succeeds and some bucket
      is not marked; otherwise the program reads no line at all. */
  lemma StartRuns(adapter: Adapter)
    ensures Settle(Refreshed([], adapter)).running <==>
      adapter.listBuckets.Ok? && Kept(adapter.listBuckets.value) != []
  {
    if adapter.listBuckets.Ok? {
      InventoryNumbering(adapter.listBuckets.value, adapter.listObjects);
    }
  }

  /** A turn that leaves no bucket stops the loop before another line is
      read. */
  lemma EmptiedStops(o: Outcome, entry: Entry)
    requires Resume(o, entry).buckets == []
    ensures !Resume(o, entry).running
  {
  }

  /** "?", "help" and an empty line print help; "q" and "quit" stop the loop;
      a verb that selects no branch falls through. None of them touches the
      inventory or the service. */
  lemma ControlWords(buckets: seq<Bucket>, line: string, adapter: Adapter)
    ensures (ToLower(line) == "?" || ToLower(line) == "help" || ToLower(line) == "") ==>
      Turn(buckets, line, adapter) == Outcome(buckets, true, None, [])
    ensures (ToLower(line) == "q" || ToLower(line) == "quit") ==>
      Turn(buckets, line, adapter) == Outcome(buckets, false, None, [])
    ensures ParseCommand(line).Unrecognised? ==>
      Turn(buckets, line, adapter) == Outcome(buckets, true, None, [])
  {
    ControlWordsParse(line);
  }

  /** "r" and "refresh" replace the inventory by a fresh read: the kept names
      numbered again from 1. A failed enumeration ends the loop. */
  lemma RefreshReloads(buckets: seq<Bucket>, line: string, adapter: Adapter)
    requires ToLower(line) == "r" || ToLower(line) == "refresh"
    ensures var o := Turn(buckets, line, adapter);
      match adapter.listBuckets
      case Err(e) =>
        o == Outcome(buckets, false, Some(ListBucketsFailed(e)), [ListBuckets])
      case Ok(names) =>
        o.running && o.fault.None? &&
        o.calls == [ListBuckets] + CountCalls(Kept(names)) &&
        |o.buckets| == |Kept(names)| &&
        forall i | 0 <= i < |Kept(names)| ::
          o.buckets[i] == Bucket(i + 1, Kept(names)[i], CountFiles(adapter.listObjects(Kept(names)[i])))
  {
    ControlWordsParse(line);
    TurnExecutes(buckets, line, Refresh, adapter);
    if adapter.listBuckets.Ok? {
      InventoryNumbering(adapter.listBuckets.value, adapter.listObjects);
    }
  }

  /** An id that names no entry (or no number at all) after "delete",
      "list" or "empty" reads a field of `undefined`: the loop ends. Any
      other unknown verb does nothing. */
  lemma UnknownTarget(buckets: seq<Bucket>, line: string, adapter: Adapter)
    requires ParseCommand(line).Delete? || ParseCommand(line).List? || ParseCommand(line).Empty?
    requires ParseCommand(line).target.None? ||
             forall b | b in buckets :: b.id != ParseCommand(line).target.value
    ensures Turn(buckets, line, adapter) == Outcome(buckets, false, Some(UndefinedBucket), [])
  {
  }

  lemma FoundTarget(buckets: seq<Bucket>, n: int)
    requires exists b | b in buckets :: b.id == n
    ensures FindIndex(buckets, Some(n)).Some?
  {
    var b :| b in buckets && b.id == n;
    var j :| 0 <= j < |buckets| && buckets[j] == b;
  }

  lemma TurnExecutes(buckets: seq<Bucket>, line: string, command: Command, adapter: Adapter)
    requires ParseCommand(line) == command
    ensures Turn(buckets, line, adapter) == Execute(buckets, command, adapter)
  {
  }

  /** "delete n": a bucket that holds objects is refused; otherwise one
      deleteBucket call, and on success exactly that entry leaves the
      inventory, the others keeping their ids and order. */
  lemma DeleteTurn(buckets: seq<Bucket>, line: string, n: int, adapter: Adapter)
    requires Sound(buckets) && ParseCommand(line) == Delete(Some(n))
    requires exists b | b in buckets :: b.id == n
    ensures FindIndex(buckets, Some(n)).Some?
    ensures var i := FindIndex(buckets, Some(n)).value;
      var bucket := buckets[i];
      var o := Turn(buckets, line, adapter);
      bucket.id == n && o.running && o.fault.None? &&
      if bucket.numFiles > 0 then o.buckets == buckets && o.calls == []
      else
        o.calls == [DeleteBucket(bucket.name)] &&
        o.buckets == if adapter.deleteBucket(bucket.name).None?
                     then buckets[..i] + buckets[i + 1..]
                     else buckets
  {
    FoundTarget(buckets, n);
    TurnExecutes(buckets, line, Delete(Some(n)), adapter);
    DropKeepsSound(buckets, FindIndex(buckets, Some(n)).value);
  }

  /** "list n": one listing of the bucket, unless its count is zero; the
      inventory never changes. */
  lemma ListTurn(buckets: seq<Bucket>, line: string, n: int, adapter: Adapter)
    requires ParseCommand(line) == List(Some(n))
    requires exists b | b in buckets :: b.id == n
    ensures FindIndex(buckets, Some(n)).Some?
    ensures var bucket := buckets[FindIndex(buckets, Some(n)).value];
      var o := Turn(buckets, line, adapter);
      bucket.id == n && o.running && o.fault.None? && o.buckets == buckets &&
      o.calls == if bucket.numFiles == 0 then [] else [ListObjects(bucket.name)]
  {
    FoundTarget(buckets, n);
    TurnExecutes(buckets, line, List(Some(n)), adapter);
  }

  /** "empty n": unless the count is zero, the keys and then the versions of
      that bucket alone are deleted; only when both succeed is its count set
      to zero, and nothing else in the inventory changes. */
  lemma EmptyTurn(buckets: seq<Bucket>, line: string, n: int, adapter: Adapter)
    requires ParseCommand(line) == Empty(Some(n))
    requires exists b | b in buckets :: b.id == n
    ensures FindIndex(buckets, Some(n)).Some?
    ensures var i := FindIndex(buckets, Some(n)).value;
      var bucket := buckets[i];
      var o := Turn(buckets, line, adapter);
      bucket.id == n && o.running && o.fault.None? &&
      if bucket.numFiles == 0 then o.buckets == buckets && o.calls == []
      else
        o.calls == Emptying.EmptyBucket(bucket.name, adapter).calls &&
        o.calls[0] == ListObjects(bucket.name) &&
        Emptying.Confined(o.calls, bucket.name) &&
        |o.buckets| == |buckets| &&
        (forall k | 0 <= k < |buckets| && k != i :: o.buckets[k] == buckets[k]) &&
        o.buckets[i] == (if Emptying.EmptyDirectory(bucket.name, adapter).error.None? &&
                            Emptying.EmptyVersions(bucket.name, adapter).error.None?
                         then bucket.(numFiles := 0) else bucket)
  {
    FoundTarget(buckets, n);
    TurnExecutes(buckets, line, Empty(Some(n)), adapter);
    EmptyCommand(buckets, n, adapter);
  }

  /** The same, for the parsed command. */
  lemma EmptyCommand(buckets: seq<Bucket>, n: int, adapter: Adapter)
    requires FindIndex(buckets, Some(n)).Some?
    ensures var i := FindIndex(buckets, Some(n)).value;
      var bucket := buckets[i];
      var o := Execute(buckets, Empty(Some(n)), adapter);
      bucket.id == n && o.running && o.fault.None? &&
      if bucket.numFiles == 0 then o.buckets == buckets && o.calls == []
      else
        o.calls == Emptying.EmptyBucket(bucket.name, adapter).calls &&
        o.calls[0] == ListObjects(bucket.name) &&
        Emptying.Confined(o.calls, bucket.name) &&
        |o.buckets| == |buckets| &&
        (forall k | 0 <= k < |buckets| && k != i :: o.buckets[k] == buckets[k]) &&
        o.buckets[i] == (if Emptying.EmptyDirectory(bucket.name, adapter).error.None? &&
                            Emptying.EmptyVersions(bucket.name, adapter).error.None?
                         then bucket.(numFiles := 0) else bucket)
  {
  }
}
