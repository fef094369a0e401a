/** The script engine object: its list, counters and interpreter, updated in place by one
    call at a time. `WorkQueue` has the same operations cut into steps and interleaved. */
module Engine {
  import opened ScriptStack
  import opened WorkQueue

  class ScriptEngine {
    var waitExecuteList: seq<Item>
    var count: int
    var count2: int
    var script: Script
    var dispatched: seq<Item>   // the history of the items run

    constructor (initial: Stack)
      ensures waitExecuteList == [] && dispatched == []
      ensures count == 0 && count2 == 0 && script == Script(initial, [])
    {
      waitExecuteList, dispatched := [], [];
      count, count2, script := 0, 0, Script(initial, []);
    }

    method ExecGafq(content: string, fd: int, msg: Option<ScriptMsg>, errinfo: string)
      modifies this
      ensures |waitExecuteList| == |old(waitExecuteList)| + 1 && old(waitExecuteList) <= waitExecuteList
      ensures var item := waitExecuteList[|old(waitExecuteList)|];
              && item.fd == fd
              && item.content == content
              && (content == "" ==> item.msg == msg && item.errinfo == errinfo)
              && (content != "" ==> item.msg == None && item.errinfo == "")
              && item == MakeItem(content, fd, msg, errinfo)
      ensures count == old(count) + 1 && count2 == old(count2) + 1
      ensures script == old(script) && dispatched == old(dispatched)
    {
      var item := if content != "" then Item(content, fd, None, "") else Item("", fd, msg, errinfo);
      waitExecuteList := waitExecuteList + [item];
      count2 := count2 + 1;
      count := count + 1;
    }

    /** `outcomes` is what the interpreter answers for each item. The loop dereferences
        every message, so every item must have one. */
    method LoopExecute(outcomes: seq<Outcome>)
      requires |outcomes| == |waitExecuteList|
      requires AllHaveMessages(waitExecuteList)
      modifies this
      ensures waitExecuteList == []
      ensures dispatched == old(dispatched) + old(waitExecuteList)
      ensures Served(old(script), script, old(waitExecuteList), outcomes)
      ensures count == old(count) && count2 == old(count2)
    {
      var temp := TakeAll();
      for i := 0 to |temp|
        invariant temp == old(waitExecuteList) && waitExecuteList == []
        invariant dispatched == old(dispatched) + temp[..i]
        invariant Served(old(script), script, temp[..i], outcomes[..i])
        invariant count == old(count) && count2 == old(count2)
      {
        ghost var before := script;
        RunOne(temp[i], outcomes[i]);
        ServedOneMore(old(script), before, script, temp[..i], temp[i], outcomes[..i], outcomes[i]);
        assert outcomes[..i + 1] == outcomes[..i] + [outcomes[i]] && temp[..i + 1] == temp[..i] + [temp[i]];
      }
      assert outcomes[..|temp|] == outcomes && temp[..|temp|] == temp;
    }

    /** The part under the lock: copy the list item by item, then clear it. */
    method TakeAll() returns (temp: seq<Item>)
      modifies `waitExecuteList
      ensures temp == old(waitExecuteList) && waitExecuteList == []
    {
      temp := [];
      var n := |waitExecuteList|;
      for i := 0 to n
        invariant temp == waitExecuteList[..i] && waitExecuteList == old(waitExecuteList)
      {
        temp := temp + [waitExecuteList[i]];
      }
      waitExecuteList := [];
    }

    /** The body of the dispatch loop, call by call on the interpreter. */
    method RunOne(item: Item, o: Outcome)
      requires item.msg.Some?
      modifies `script, `dispatched
      ensures ServedOne(old(script), script, item, o)
      ensures dispatched == old(dispatched) + [item]
    {
      DispatchServes(script, item, o);
      var action, data, fd := item.msg.value.action, item.msg.value.data, item.fd;
      script := GetGlobal(script, CStr(action), o.global);
      if Top(script).Function? {
        script := Push(script, Number(fd as real));
        script := Push(script, Text(CStr(data)));
        script := PCall(script, 2, o.result);
        if o.result.Failed? {
          if !Top(script).Nil? {
            script := ToStringOnTop(script, o.numeral);
            script := Pop(script, 1);
          }
        }
      } else {
        script := ToStringOnTop(script, o.numeral);
      }
      dispatched := dispatched + [item];
    }
  }
}
