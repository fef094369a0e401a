/** The value stack of the script interpreter as the dispatch loop uses it. The effect of
    each call is the one in section 3.7 of the Lua 5.1 Reference Manual, whose API gafq.h
    renames; what a script does inside a call is a parameter. */
module ScriptStack {
  import opened Counting

  datatype Value = Nil | Number(n: real) | Text(text: string) | Function(id: nat) | Other(id: nat)

  type Stack = seq<Value>

  datatype CallResult = Succeeded | Failed(error: Value)

  /** What the environment answers for one item: the global named by the action, what
      calling it does if it is a function, and the numeral of a number that is printed. */
  datatype Outcome = Outcome(global: Value, result: CallResult, numeral: string)

  /** A protected call: what was called and with which arguments. */
  datatype Invocation = Invocation(callee: Value, args: seq<Value>)

  /** The name of a global that was looked up, and the calls made before the next lookup. */
  datatype Visit = Visit(global: string, calls: seq<Invocation>)

  /** The interpreter: its stack, and the history of what it was asked to do. */
  datatype Script = Script(stack: Stack, visits: seq<Visit>)

  datatype Option<T> = None | Some(value: T)

  datatype ScriptMsg = ScriptMsg(action: string, data: string)

  /** What is queued for the interpreter. */
  datatype Item = Item(content: string, fd: int, msg: Option<ScriptMsg>, errinfo: string)

  predicate AllHaveMessages(items: seq<Item>) {
    forall i :: 0 <= i < |items| ==> items[i].msg.Some?
  }

  /** `c_str`: what the interpreter sees of a string ends at its first NUL. */
  function CStr(s: string): (r: string)
    ensures r <= s && '\0' !in r
    ensures |r| < |s| ==> s[|r|] == '\0'
  {
    if s == "" || s[0] == '\0' then "" else [s[0]] + CStr(s[1..])
  }

  function GetGlobal(vm: Script, name: string, v: Value): Script {
    Script(vm.stack + [v], vm.visits + [Visit(name, [])])
  }

  function Push(vm: Script, v: Value): Script {
    vm.(stack := vm.stack + [v])
  }

  function Top(vm: Script): Value
    requires vm.stack != []
  {
    vm.stack[|vm.stack| - 1]
  }

  /** The last visit with one more call. */
  function Record(visits: seq<Visit>, call: Invocation): seq<Visit>
    requires visits != []
  {
    var last := visits[|visits| - 1];
    visits[|visits| - 1 := last.(calls := last.calls + [call])]
  }

  /** `pcall` with no wanted results removes the function and its arguments, which are the
      top of the stack, and on failure leaves the error value. */
  function PCall(vm: Script, nargs: nat, r: CallResult): Script
    requires |vm.stack| > nargs && vm.visits != []
  {
    var at := |vm.stack| - nargs - 1;
    Script(vm.stack[..at] + (if r.Failed? then [r.error] else []),
           Record(vm.visits, Invocation(vm.stack[at], vm.stack[at + 1..])))
  }

  /** `settop` with a negative index counts from the top. */
  function SetTop(vm: Script, idx: int): Script
    requires idx < 0 <= |vm.stack| + idx + 1
  {
    vm.(stack := vm.stack[..|vm.stack| + idx + 1])
  }

  function Pop(vm: Script, n: nat): Script
    requires n <= |vm.stack|
  {
    SetTop(vm, 0 - n - 1)
  }

  /** `tostring` on the top of the stack turns a number there into its numeral. */
  function ToStringOnTop(vm: Script, numeral: string): Script
    requires vm.stack != []
  {
    if Top(vm).Number? then vm.(stack := vm.stack[|vm.stack| - 1 := Text(numeral)]) else vm
  }

  /** One pass of the dispatch loop. */
  function Dispatch(vm: Script, item: Item, o: Outcome): Script
    requires item.msg.Some?
  {
    var vm1 := GetGlobal(vm, CStr(item.msg.value.action), o.global);
    if Top(vm1).Function? then
      var vm2 := PCall(Push(Push(vm1, Number(item.fd as real)), Text(CStr(item.msg.value.data))), 2, o.result);
      if o.result.Failed? && !Top(vm2).Nil? then Pop(ToStringOnTop(vm2, o.numeral), 1) else vm2
    else ToStringOnTop(vm1, o.numeral)
  }

  function DispatchAll(vm: Script, items: seq<Item>, os: seq<Outcome>): Script
    requires |items| == |os| && AllHaveMessages(items)
  {
    if os == [] then vm
    else Dispatch(DispatchAll(vm, items[..|items| - 1], os[..|os| - 1]), items[|items| - 1], os[|os| - 1])
  }

  /** The action names something that is not a function. */
  predicate NotAFunction(o: Outcome) {
    !o.global.Function?
  }

  /** The call failed and its error value is nil. */
  predicate NilFailure(o: Outcome) {
    o.global.Function? && o.result == Failed(Nil)
  }

  /** What one item leaves behind: a value that is not a function stays (a number as the
      string it was printed as), and so does a nil error; everything else is cleaned up. */
  function Residue(o: Outcome): Stack {
    match o.global
    case Function(_) => if o.result == Failed(Nil) then [Nil] else []
    case Number(_) => [Text(o.numeral)]
    case other => [other]
  }

  function Residues(os: seq<Outcome>): Stack {
    if os == [] then [] else Residues(os[..|os| - 1]) + Residue(os[|os| - 1])
  }

  /** The visit is the one the item asks for: its action is looked up, and if that is a
      function it is called once, with the connection and the data, in this order. */
  ghost predicate Serves(v: Visit, fd: int, msg: ScriptMsg, o: Outcome) {
    && v.global == CStr(msg.action)
    && v.calls == if o.global.Function? then [Invocation(o.global, [Number(fd as real), Text(CStr(msg.data))])] else []
  }

  /** The interpreter has gone from `before` to `after` by serving one item: the stack has
      grown by the residue, and there is one more visit, the one the item asks for. */
  ghost predicate ServedOne(before: Script, after: Script, item: Item, o: Outcome) {
    && item.msg.Some?
    && after.stack == before.stack + Residue(o)
    && |after.visits| == |before.visits| + 1
    && before.visits <= after.visits
    && Serves(after.visits[|before.visits|], item.fd, item.msg.value, o)
  }

  /** The same for a sequence of items, served in this order. */
  ghost predicate Served(before: Script, after: Script, items: seq<Item>, os: seq<Outcome>) {
    && |items| == |os| && AllHaveMessages(items)
    && after.stack == before.stack + Residues(os)
    && VisitsServe(before.visits, after.visits, items, os)
  }

  /** The visits after `before`: visit k is the one that item k asks for. */
  ghost predicate VisitsServe(before: seq<Visit>, after: seq<Visit>, items: seq<Item>, os: seq<Outcome>)
    requires |items| == |os| && AllHaveMessages(items)
  {
    && |after| == |before| + |items|
    && before <= after
    && forall k :: 0 <= k < |items| ==> Serves(after[|before| + k], items[k].fd, items[k].msg.value, os[k])
  }

  /** A call with two arguments: the function on the top and both arguments are gone, and the
      record says what was called with which arguments, the first pushed first. */
  lemma CallOfTop(vm: Script, a: Value, b: Value, r: CallResult)
    requires vm.stack != [] && vm.visits != []
    ensures var called := PCall(Push(Push(vm, a), b), 2, r);
            && called.stack == vm.stack[..|vm.stack| - 1] + (if r.Failed? then [r.error] else [])
            && called.visits == Record(vm.visits, Invocation(Top(vm), [a, b]))
  {
    assert (vm.stack + [a] + [b])[|vm.stack|..] == [a, b];
  }

  lemma DispatchLeavesResidue(vm: Script, item: Item, o: Outcome)
    requires item.msg.Some?
    ensures Dispatch(vm, item, o).stack == vm.stack + Residue(o)
  {
    var found := GetGlobal(vm, CStr(item.msg.value.action), o.global);
    assert found.stack[..|vm.stack|] == vm.stack;
    CallOfTop(found, Number(item.fd as real), Text(CStr(item.msg.value.data)), o.result);
  }

  /** One pass makes exactly the lookup and the call that the item asks for. */
  lemma DispatchServes(vm: Script, item: Item, o: Outcome)
    requires item.msg.Some?
    ensures ServedOne(vm, Dispatch(vm, item, o), item, o)
  {
    DispatchLeavesResidue(vm, item, o);
    var found := GetGlobal(vm, CStr(item.msg.value.action), o.global);
    CallOfTop(found, Number(item.fd as real), Text(CStr(item.msg.value.data)), o.result);
  }

  lemma ServedOneMore(before: Script, now: Script, after: Script,
                      items: seq<Item>, item: Item, os: seq<Outcome>, o: Outcome)
    requires Served(before, now, items, os) && ServedOne(now, after, item, o)
    ensures Served(before, after, items + [item], os + [o])
  {
    assert (os + [o])[..|os|] == os;
    VisitOneMore(before.visits, now.visits, after.visits, items, item, os, o);
  }

  lemma VisitOneMore(before: seq<Visit>, now: seq<Visit>, after: seq<Visit>,
                     items: seq<Item>, item: Item, os: seq<Outcome>, o: Outcome)
    requires |items| == |os| && AllHaveMessages(items) && VisitsServe(before, now, items, os)
    requires item.msg.Some? && |after| == |now| + 1 && now <= after
    requires Serves(after[|now|], item.fd, item.msg.value, o)
    ensures VisitsServe(before, after, items + [item], os + [o])
  {
  }

  lemma DispatchOneMore(before: Script, now: Script, items: seq<Item>, item: Item, os: seq<Outcome>, o: Outcome)
    requires Served(before, now, items, os) && item.msg.Some?
    ensures Served(before, Dispatch(now, item, o), items + [item], os + [o])
  {
    DispatchServes(now, item, o);
    ServedOneMore(before, now, Dispatch(now, item, o), items, item, os, o);
  }

  lemma LastDispatchServes(vm: Script, items: seq<Item>, os: seq<Outcome>)
    requires |items| == |os| && AllHaveMessages(items) && os != []
    ensures var i := |os| - 1;
            ServedOne(DispatchAll(vm, items[..i], os[..i]), DispatchAll(vm, items, os), items[i], os[i])
  {
    var i := |os| - 1;
    DispatchServes(DispatchAll(vm, items[..i], os[..i]), items[i], os[i]);
  }

  lemma ServedUpToLast(before: Script, now: Script, after: Script, items: seq<Item>, os: seq<Outcome>)
    requires |items| == |os| && os != []
    requires var i := |os| - 1;
             Served(before, now, items[..i], os[..i]) && ServedOne(now, after, items[i], os[i])
    ensures Served(before, after, items, os)
  {
    var i := |os| - 1;
    FrontAndLast(items);
    FrontAndLast(os);
    ServedOneMore(before, now, after, items[..i], items[i], os[..i], os[i]);
  }

  lemma FrontAndLast<T>(s: seq<T>)
    requires s != []
    ensures s == s[..|s| - 1] + [s[|s| - 1]]
  {
  }

  /** Any number of dispatches serve exactly their items, in order. */
  lemma {:induction false} DispatchAllServes(vm: Script, items: seq<Item>, os: seq<Outcome>)
    requires |items| == |os| && AllHaveMessages(items)
    ensures Served(vm, DispatchAll(vm, items, os), items, os)
  {
    if os != [] {
      var i := |os| - 1;
      DispatchAllServes(vm, items[..i], os[..i]);
      LastDispatchServes(vm, items, os);
      ServedUpToLast(vm, DispatchAll(vm, items[..i], os[..i]), DispatchAll(vm, items, os), items, os);
    }
  }

  lemma {:induction false} ResiduesCount(os: seq<Outcome>)
    ensures |Residues(os)| == Count(os, NotAFunction) + Count(os, NilFailure)
  {
    if os != [] {
      ResiduesCount(os[..|os| - 1]);
      CountSnoc(os, NotAFunction);
      CountSnoc(os, NilFailure);
    }
  }

  /** What an interpreter that starts with `stack` has done once the items are served. */
  lemma ServedFromStart(stack: Stack, vm: Script, items: seq<Item>, os: seq<Outcome>)
    requires Served(Script(stack, []), vm, items, os)
    ensures vm.stack == stack + Residues(os)
    ensures |vm.stack| == |stack| + Count(os, NotAFunction) + Count(os, NilFailure)
    ensures |vm.visits| == |items|
    ensures forall k :: 0 <= k < |items| ==> Serves(vm.visits[k], items[k].fd, items[k].msg.value, os[k])
  {
    ResiduesCount(os);
    forall k | 0 <= k < |items|
      ensures Serves(vm.visits[k], items[k].fd, items[k].msg.value, os[k])
    {
      assert Serves(vm.visits[0 + k], items[k].fd, items[k].msg.value, os[k]);
    }
  }

  /** Stack accounting over any number of dispatches: the old values stay below, the
      residues lie above them in order, and there is one for each non-function and each
      nil failure. */
  lemma StackAccounting(vm: Script, items: seq<Item>, os: seq<Outcome>)
    requires |items| == |os| && AllHaveMessages(items)
    ensures DispatchAll(vm, items, os).stack == vm.stack + Residues(os)
    ensures |Residues(os)| == Count(os, NotAFunction) + Count(os, NilFailure)
  {
    DispatchAllServes(vm, items, os);
    ResiduesCount(os);
  }

  /** The stack is left exactly as it was if and only if every action was a function and no
      call failed with nil. */
  lemma StackUnchangedIff(vm: Script, items: seq<Item>, os: seq<Outcome>)
    requires |items| == |os| && AllHaveMessages(items)
    ensures DispatchAll(vm, items, os).stack == vm.stack <==>
            forall i :: 0 <= i < |os| ==> !NotAFunction(os[i]) && !NilFailure(os[i])
  {
    StackAccounting(vm, items, os);
    CountZero(os, NotAFunction);
    CountZero(os, NilFailure);
  }
}
