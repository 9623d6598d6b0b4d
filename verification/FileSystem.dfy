/** The datastore's directory as a device: each method is one durable action, and `history` keeps every directory
    that a process stopping right after such an action would leave behind. */
module FileSystems {
  import opened DatastoreModel

  class FileSystem {
    var files: map<Id, BlockFile>
    var logs: map<Id, seq<Stream>>
    var temps: map<TempName, BlockFile>
    ghost var history: seq<Disk>

    ghost function View(): Disk
      reads this
    {
      Disk(files, logs, temps)
    }

    /** The actions since `before` only ever touched temporary files, up to the last directory reached. */
    ghost predicate OnlyTempsSince(before: seq<Disk>, d: Disk, last: nat)
      reads this
    {
      && before <= history && |before| <= last <= |history|
      && forall i :: |before| <= i < last ==> history[i].files == d.files && history[i].logs == d.logs
    }

    /** WriteProtoFile on the log: open it, creating it empty if it is not there. */
    method OpenLog(id: Id)
      modifies this
      ensures View() == old(View()).(logs := old(logs)[id := LogOf(old(View()), id)])
      ensures history == old(history) + [View()]
    {
      if id !in logs {
        logs := logs[id := []];
      }
      history := history + [View()];
    }

    method AppendLog(id: Id, st: Stream)
      requires id in logs
      modifies this
      ensures View() == old(View()).(logs := old(logs)[id := old(logs)[id] + [st]])
      ensures history == old(history) + [View()]
    {
      logs := logs[id := logs[id] + [st]];
      history := history + [View()];
    }

    /** WriteProtoFile on a temporary name that is not taken, and the header. */
    method CreateTemp(name: TempName, endKey: Key)
      requires name !in temps
      modifies this
      ensures View() == old(View()).(temps := old(temps)[name := BlockFile(endKey, [])])
      ensures history == old(history) + [View()]
    {
      temps := temps[name := BlockFile(endKey, [])];
      history := history + [View()];
    }

    method AppendTemp(name: TempName, st: Stream)
      requires name in temps
      modifies this
      ensures View() == old(View()).(temps := old(temps)[name := BlockFile(old(temps)[name].endKey, old(temps)[name].streams + [st])])
      ensures history == old(history) + [View()]
    {
      temps := temps[name := BlockFile(temps[name].endKey, temps[name].streams + [st])];
      history := history + [View()];
    }

    /** os.Rename of a temporary file onto the block's file name. */
    method Rename(name: TempName, id: Id)
      requires name in temps
      modifies this
      ensures View() == Disk(old(files)[id := old(temps)[name]], old(logs), old(temps) - {name})
      ensures history == old(history) + [View()]
    {
      files := files[id := temps[name]];
      temps := temps - {name};
      history := history + [View()];
    }

    /** os.Remove of a log; removing one that is not there does nothing. */
    method RemoveLog(id: Id)
      modifies this
      ensures View() == old(View()).(logs := old(logs) - {id})
      ensures history == old(history) + [View()]
    {
      logs := logs - {id};
      history := history + [View()];
    }
  }
}
