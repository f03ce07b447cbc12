/**
  Exceptions that travel through alternating Python and C++ calls. A Python exception enters C++ as a handle in
  the pending slot of its thread, flies on as a C++ exception that owns the handle, and goes back through the slot.
 */
module PyException {
  import opened Options
  import Utf8

  type Ptr = nat
  type Tid = nat

  // ---------------------------------------------------------------------------------------------
  // Programs: what one thread does, as a tree of calls
  // ---------------------------------------------------------------------------------------------

  /** `ordinary`: the class of the exception object derives from `Exception`. `AssertionFailed` is what the assertion
      on a result raises; `Alien` is what a C++ exception of no known class would be in Python. */
  datatype PyExc =
    | User(obj: nat, ordinary: bool)
    | Djinni(text: seq<Utf8.CodePoint>)
    | AssertionFailed
    | Alien(id: nat)

  /** A message is whatever bytes `what()` returns. `Foreign` does not derive from `std::exception`. */
  datatype CppExc = Std(message: seq<Utf8.Byte>) | Foreign(id: nat) | Py(e: PyExc)

  /** `Stuck`: a C++ exception unwinds into the C code between the languages, which is undefined. */
  datatype Outcome<X> = Return | Raise(x: X) | Stuck

  /** A call may assert that its result is not null; a C++ function that returns normally does not return null.
      `Try` runs the handler when the body raises and the handler is for such exceptions: for all, or only for those
      derived from `Exception`. Then, unless the handler raises itself, it either raises the exception again or
      goes on with the rest. */
  datatype PyCode =
    | PyReturn
    | PyRaise(obj: nat, ordinary: bool)
    | PyCall(callee: CppCode, needsResult: bool, rest: PyCode)
    | PyTry(body: PyCode, all: bool, handler: PyCode, reraise: bool, rest: PyCode)

  /** Here a handler is for all exceptions, or only for those derived from `std::exception`. */
  datatype CppCode =
    | CppReturn
    | CppThrow(message: seq<Utf8.Byte>)
    | CppThrowForeign(id: nat)
    | CppCall(callee: PyCode, rest: CppCode)
    | CppTry(body: CppCode, all: bool, handler: CppCode, rethrow: bool, rest: CppCode)

  predicate Ordinary(e: PyExc) { e.User? ==> e.ordinary }

  /** What a C++ exception ought to be in Python. */
  function ToPython(x: CppExc): PyExc
  {
    match x
    case Std(message) => Djinni(Utf8.Decode(message))
    case Foreign(id) => Alien(id)
    case Py(e) => e
  }

  /** The exception object has the text whose UTF-8 encoding is the message. */
  predicate Says(e: PyExc, message: seq<Utf8.Byte>)
  {
    e.Djinni? && Utf8.AllScalar(e.text) && Utf8.EncodeAll(e.text) == message
  }

  lemma ToPythonSays(message: seq<Utf8.Byte>)
    requires Utf8.WellFormed(message)
    ensures Says(ToPython(Std(message)), message)
  {
    Utf8.DecodeWellFormed(message);
  }

  /** There is but one such object. */
  lemma SaysOneThing(e: PyExc, e': PyExc, message: seq<Utf8.Byte>)
    requires Says(e, message) && Says(e', message)
    ensures e == e'
  {
    Utf8.DecodeOfEncodeAll(e.text);
    Utf8.DecodeOfEncodeAll(e'.text);
  }

  /** Different C++ exceptions ought to be different in Python. */
  lemma ToPythonKeepsApart(x: CppExc, y: CppExc)
    requires ToPython(x) == ToPython(y) && !x.Py? && !y.Py?
    requires (x.Std? ==> Utf8.WellFormed(x.message)) && (y.Std? ==> Utf8.WellFormed(y.message))
    ensures x == y
  {
    if x.Std? { Utf8.DecodeWellFormed(x.message); }
    if y.Std? { Utf8.DecodeWellFormed(y.message); }
  }

  // ---------------------------------------------------------------------------------------------
  // What programs mean: if Python and C++ were one language, and with the catch clauses that there are
  // ---------------------------------------------------------------------------------------------

  datatype Crossing = Ideal | Actual

  /** A C++ exception leaves a function that Python has called. The wrapper catches only what derives from
      `std::exception`. If the message cannot be decoded, no exception is created and none is pending: Python sees a
      null result. */
  function AtWrapper(o: Outcome<CppExc>, needsResult: bool, how: Crossing): Outcome<PyExc>
  {
    match o
    case Return => Return
    case Stuck => Stuck
    case Raise(x) =>
      if how.Ideal? then Raise(ToPython(x))
      else if x.Foreign? then Stuck
      else if x.Std? && !Utf8.WellFormed(x.message) then (if needsResult then Raise(AssertionFailed) else Return)
      else Raise(ToPython(x))
  }

  /** A Python exception leaves a method that C++ has called. The callback catches only what derives from `Exception`;
      anything else is dropped, and C++ sees a null result. */
  function AtCallback(o: Outcome<PyExc>, how: Crossing): Outcome<CppExc>
  {
    match o
    case Return => Return
    case Stuck => Stuck
    case Raise(e) => if how.Actual? && !Ordinary(e) then Return else Raise(Py(e))
  }

  function PyMeaning(c: PyCode, how: Crossing): Outcome<PyExc>
  {
    match c
    case PyReturn => Return
    case PyRaise(obj, ordinary) => Raise(User(obj, ordinary))
    case PyCall(callee, needsResult, rest) =>
      var o := AtWrapper(CppMeaning(callee, how), needsResult, how);
      if o.Return? then PyMeaning(rest, how) else o
    case PyTry(body, all, handler, reraise, rest) =>
      var o := PyMeaning(body, how);
      if o.Return? then PyMeaning(rest, how)
      else if o.Stuck? || !(all || Ordinary(o.x)) then o
      else
        var h := PyMeaning(handler, how);
        if !h.Return? then h else if reraise then o else PyMeaning(rest, how)
  }

  function CppMeaning(c: CppCode, how: Crossing): Outcome<CppExc>
  {
    match c
    case CppReturn => Return
    case CppThrow(message) => Raise(Std(message))
    case CppThrowForeign(id) => Raise(Foreign(id))
    case CppCall(callee, rest) =>
      var o := AtCallback(PyMeaning(callee, how), how);
      if o.Return? then CppMeaning(rest, how) else o
    case CppTry(body, all, handler, rethrow, rest) =>
      var o := CppMeaning(body, how);
      if o.Return? then CppMeaning(rest, how)
      else if o.Stuck? || !(all || !o.x.Foreign?) then o
      else
        var h := CppMeaning(handler, how);
        if !h.Return? then h else if rethrow then o else CppMeaning(rest, how)
  }

  // ---------------------------------------------------------------------------------------------
  // When the two agree
  // ---------------------------------------------------------------------------------------------

  predicate SurvivesWrapper(x: CppExc) { !x.Foreign? && (x.Std? ==> Utf8.WellFormed(x.message)) }

  /** A single exception crosses as it should exactly when it is one that the wrapper catches and, if C++ threw it, its
      message is well-formed UTF-8. */
  lemma WrapperCrossingIff(x: CppExc, needsResult: bool)
    ensures AtWrapper(Raise(x), needsResult, Actual) == AtWrapper(Raise(x), needsResult, Ideal) <==> SurvivesWrapper(x)
  {
  }

  /** In the other direction, exactly when it derives from `Exception`. */
  lemma CallbackCrossingIff(e: PyExc)
    ensures AtCallback(Raise(e), Actual) == AtCallback(Raise(e), Ideal) <==> Ordinary(e)
  {
  }

  /** All exceptions that cross when the program runs survive it. */
  predicate PyCrossesWell(c: PyCode)
  {
    match c
    case PyReturn => true
    case PyRaise(_, _) => true
    case PyCall(callee, _, rest) =>
      var o := CppMeaning(callee, Ideal);
      CppCrossesWell(callee) && if o.Raise? then SurvivesWrapper(o.x) else PyCrossesWell(rest)
    case PyTry(body, all, handler, reraise, rest) =>
      var o := PyMeaning(body, Ideal);
      && PyCrossesWell(body)
      && if o.Return? then PyCrossesWell(rest)
         else o.Raise? && (all || Ordinary(o.x)) ==>
           PyCrossesWell(handler) && (PyMeaning(handler, Ideal).Return? && !reraise ==> PyCrossesWell(rest))
  }

  predicate CppCrossesWell(c: CppCode)
  {
    match c
    case CppReturn => true
    case CppThrow(_) => true
    case CppThrowForeign(_) => true
    case CppCall(callee, rest) =>
      var o := PyMeaning(callee, Ideal);
      PyCrossesWell(callee) && if o.Raise? then Ordinary(o.x) else CppCrossesWell(rest)
    case CppTry(body, all, handler, rethrow, rest) =>
      var o := CppMeaning(body, Ideal);
      && CppCrossesWell(body)
      && if o.Return? then CppCrossesWell(rest)
         else o.Raise? && (all || !o.x.Foreign?) ==>
           CppCrossesWell(handler) && (CppMeaning(handler, Ideal).Return? && !rethrow ==> CppCrossesWell(rest))
  }

  /** Then the program does what it would do in one language. */
  lemma {:induction false} PyAgrees(c: PyCode)
    requires PyCrossesWell(c)
    ensures PyMeaning(c, Actual) == PyMeaning(c, Ideal)
    decreases c
  {
    match c
    case PyReturn =>
    case PyRaise(_, _) =>
    case PyCall(callee, _, rest) =>
      CppAgrees(callee);
      if !CppMeaning(callee, Ideal).Raise? { PyAgrees(rest); }
    case PyTry(body, all, handler, reraise, rest) =>
      PyAgrees(body);
      var o := PyMeaning(body, Ideal);
      if o.Return? {
        PyAgrees(rest);
      } else if o.Raise? && (all || Ordinary(o.x)) {
        PyAgrees(handler);
        if PyMeaning(handler, Ideal).Return? && !reraise { PyAgrees(rest); }
      }
  }

  lemma {:induction false} CppAgrees(c: CppCode)
    requires CppCrossesWell(c)
    ensures CppMeaning(c, Actual) == CppMeaning(c, Ideal)
    decreases c
  {
    match c
    case CppReturn =>
    case CppThrow(_) =>
    case CppThrowForeign(_) =>
    case CppCall(callee, rest) =>
      PyAgrees(callee);
      if !PyMeaning(callee, Ideal).Raise? { CppAgrees(rest); }
    case CppTry(body, all, handler, rethrow, rest) =>
      CppAgrees(body);
      var o := CppMeaning(body, Ideal);
      if o.Return? {
        CppAgrees(rest);
      } else if o.Raise? && (all || !o.x.Foreign?) {
        CppAgrees(handler);
        if CppMeaning(handler, Ideal).Return? && !rethrow { CppAgrees(rest); }
      }
  }

  /** An exception whose message is not UTF-8 disappears. */
  lemma MessageDisappears()
    ensures var c := PyCall(CppThrow([0xFF]), false, PyReturn);
            PyMeaning(c, Ideal).Raise? && PyMeaning(c, Actual) == Return
  {
    assert !Utf8.WellFormed([0xFF]);
  }

  /** An exception that does not derive from `Exception`, such as a request to exit, disappears too. */
  lemma ExitDisappears()
    ensures var c := PyCall(CppCall(PyRaise(0, false), CppReturn), false, PyReturn);
            PyMeaning(c, Ideal) == Raise(User(0, false)) && PyMeaning(c, Actual) == Return
  {
    assert PyMeaning(PyRaise(0, false), Actual) == Raise(User(0, false)) == PyMeaning(PyRaise(0, false), Ideal);
    assert CppMeaning(CppCall(PyRaise(0, false), CppReturn), Actual) == Return;
    assert CppMeaning(CppCall(PyRaise(0, false), CppReturn), Ideal) == Raise(Py(User(0, false)));
  }

  // ---------------------------------------------------------------------------------------------
  // Where an exception can come from, and how far it gets
  // ---------------------------------------------------------------------------------------------

  /** The exceptions that are raised in the program text, as Python sees them. */
  function PyRaised(c: PyCode): set<PyExc>
  {
    match c
    case PyReturn => {}
    case PyRaise(obj, ordinary) => {User(obj, ordinary)}
    case PyCall(callee, _, rest) => CppRaised(callee) + PyRaised(rest)
    case PyTry(body, _, handler, _, rest) => PyRaised(body) + PyRaised(handler) + PyRaised(rest)
  }

  function CppRaised(c: CppCode): set<PyExc>
  {
    match c
    case CppReturn => {}
    case CppThrow(message) => {ToPython(Std(message))}
    case CppThrowForeign(id) => {ToPython(Foreign(id))}
    case CppCall(callee, rest) => PyRaised(callee) + CppRaised(rest)
    case CppTry(body, _, handler, _, rest) => CppRaised(body) + CppRaised(handler) + CppRaised(rest)
  }

  /** No exception is made up on the way, but that of a failed assertion. */
  lemma {:induction false} PyRaisesOnlyWhatWasRaised(c: PyCode)
    ensures PyMeaning(c, Actual).Raise? ==> PyMeaning(c, Actual).x in PyRaised(c) + {AssertionFailed}
  {
    match c
    case PyReturn =>
    case PyRaise(_, _) =>
    case PyCall(callee, _, rest) =>
      CppRaisesOnlyWhatWasRaised(callee);
      PyRaisesOnlyWhatWasRaised(rest);
    case PyTry(body, _, handler, _, rest) =>
      PyRaisesOnlyWhatWasRaised(body);
      PyRaisesOnlyWhatWasRaised(handler);
      PyRaisesOnlyWhatWasRaised(rest);
  }

  lemma {:induction false} CppRaisesOnlyWhatWasRaised(c: CppCode)
    ensures CppMeaning(c, Actual).Raise? ==> ToPython(CppMeaning(c, Actual).x) in CppRaised(c) + {AssertionFailed}
  {
    match c
    case CppReturn =>
    case CppThrow(_) =>
    case CppThrowForeign(_) =>
    case CppCall(callee, rest) =>
      PyRaisesOnlyWhatWasRaised(callee);
      CppRaisesOnlyWhatWasRaised(rest);
    case CppTry(body, _, handler, _, rest) =>
      CppRaisesOnlyWhatWasRaised(body);
      CppRaisesOnlyWhatWasRaised(handler);
      CppRaisesOnlyWhatWasRaised(rest);
  }

  /** A Python frame and the C++ frame it calls: before the call each makes another one, and each may catch
      the exception of the call to raise it again. */
  datatype Frames = Frames(pyBefore: CppCode, pyAll: bool, pyCatch: Option<PyCode>, needsResult: bool, pyRest: PyCode,
                           cppBefore: PyCode, cppAll: bool, cppCatch: Option<CppCode>, cppRest: CppCode)

  function InCpp(f: Frames, inner: PyCode): CppCode
  {
    var call := CppCall(f.cppBefore, CppCall(inner, f.cppRest));
    match f.cppCatch
    case None => call
    case Some(handler) => CppTry(call, f.cppAll, handler, true, CppReturn)
  }

  function InPython(f: Frames, inner: PyCode): PyCode
  {
    var call := PyCall(f.pyBefore, false, PyCall(InCpp(f, inner), f.needsResult, f.pyRest));
    match f.pyCatch
    case None => call
    case Some(handler) => PyTry(call, f.pyAll, handler, true, PyReturn)
  }

  function Nest(fs: seq<Frames>, inner: PyCode): PyCode
  {
    if fs == [] then inner else InPython(fs[0], Nest(fs[1..], inner))
  }

  /** The frame itself raises nothing. */
  predicate Quiet(f: Frames)
  {
    && CppMeaning(f.pyBefore, Actual).Return? && PyMeaning(f.pyRest, Actual).Return?
    && PyMeaning(f.cppBefore, Actual).Return? && CppMeaning(f.cppRest, Actual).Return?
    && (f.pyCatch.Some? ==> PyMeaning(f.pyCatch.value, Actual).Return?)
    && (f.cppCatch.Some? ==> CppMeaning(f.cppCatch.value, Actual).Return?)
  }

  /** What a frame lets through. */
  function Through(o: Outcome<PyExc>): Outcome<PyExc> { if o.Raise? && !Ordinary(o.x) then Return else o }

  lemma PassesThroughCpp(f: Frames, inner: PyCode)
    requires Quiet(f) && !PyMeaning(inner, Actual).Stuck?
    ensures CppMeaning(InCpp(f, inner), Actual) == AtCallback(PyMeaning(inner, Actual), Actual)
  {
    var o := AtCallback(PyMeaning(inner, Actual), Actual);
    assert CppMeaning(CppCall(inner, f.cppRest), Actual) == o;
    assert CppMeaning(CppCall(f.cppBefore, CppCall(inner, f.cppRest)), Actual) == o;
  }

  lemma PassesThroughFrame(f: Frames, inner: PyCode)
    requires Quiet(f) && !PyMeaning(inner, Actual).Stuck?
    ensures PyMeaning(InPython(f, inner), Actual) == Through(PyMeaning(inner, Actual))
  {
    var o := Through(PyMeaning(inner, Actual));
    PassesThroughCpp(f, inner);
    assert PyMeaning(PyCall(InCpp(f, inner), f.needsResult, f.pyRest), Actual) == o;
    assert PyMeaning(PyCall(f.pyBefore, false, PyCall(InCpp(f, inner), f.needsResult, f.pyRest)), Actual) == o;
  }

  /** Through any depth of alternating calls, what is raised at the bottom comes out at the top as the same object,
      exactly when it derives from `Exception`. Otherwise the first callback drops it. */
  lemma {:induction false} ResurfacesIff(fs: seq<Frames>, inner: PyCode)
    requires fs != [] && (forall f :: f in fs ==> Quiet(f)) && PyMeaning(inner, Actual).Raise?
    ensures PyMeaning(Nest(fs, inner), Actual) == Through(PyMeaning(inner, Actual))
    ensures PyMeaning(Nest(fs, inner), Actual) == PyMeaning(inner, Actual) <==> Ordinary(PyMeaning(inner, Actual).x)
    decreases |fs|
  {
    assert Quiet(fs[0]);
    if |fs| > 1 {
      ResurfacesIff(fs[1..], inner);
    }
    PassesThroughFrame(fs[0], Nest(fs[1..], inner));
  }

  /** What Python raises at the bottom comes out as it was, if it derives from `Exception`, and else not at all. */
  lemma RaisedAtBottom(fs: seq<Frames>, obj: nat, ordinary: bool)
    requires fs != [] && forall f :: f in fs ==> Quiet(f)
    ensures PyMeaning(Nest(fs, PyRaise(obj, ordinary)), Actual) == if ordinary then Raise(User(obj, true)) else Return
  {
    ResurfacesIff(fs, PyRaise(obj, ordinary));
  }

  /** What C++ throws at the bottom comes out as a Djinni exception that says what was thrown. */
  lemma ThrownAtBottom(fs: seq<Frames>, message: seq<Utf8.Byte>, needsResult: bool, rest: PyCode)
    requires Utf8.WellFormed(message) && forall f :: f in fs ==> Quiet(f)
    ensures var o := PyMeaning(Nest(fs, PyCall(CppThrow(message), needsResult, rest)), Actual);
            o.Raise? && Says(o.x, message)
  {
    var c := PyCall(CppThrow(message), needsResult, rest);
    ToPythonSays(message);
    assert PyMeaning(c, Actual) == Raise(ToPython(Std(message)));
    if fs != [] { ResurfacesIff(fs, c); }
  }

  /** A null result that must not be null fails an assertion, and that comes out too. */
  lemma AssertedAtBottom(fs: seq<Frames>, message: seq<Utf8.Byte>, rest: PyCode)
    requires !Utf8.WellFormed(message) && forall f :: f in fs ==> Quiet(f)
    ensures PyMeaning(Nest(fs, PyCall(CppThrow(message), true, rest)), Actual) == Raise(AssertionFailed)
  {
    var c := PyCall(CppThrow(message), true, rest);
    assert PyMeaning(c, Actual) == Raise(AssertionFailed);
    if fs != [] { ResurfacesIff(fs, c); }
  }

  // ---------------------------------------------------------------------------------------------
  // The machinery
  // ---------------------------------------------------------------------------------------------

  /** Who has a live handle: the pending slot of a thread, or a variable or C++ exception of a thread. */
  datatype Holder = Slot(t: Tid) | Flight(t: Tid)

  /** An exception on its way through C++. */
  datatype Thrown = StdException(message: seq<Utf8.Byte>) | ForeignException(id: nat) | PythonException(handle: Ptr)

  datatype CppResult = Returned | Threw(x: Thrown) | Aborted

  /** What a wrapper function does. */
  datatype WrapperResult = Pointer | NullPointer | Unwinds

  /** What a thread has: handles in flight, and the exception in its slot. */
  datatype View = View(inFlight: map<Ptr, PyExc>, pending: Option<PyExc>)

  function SlotIn(slots: map<Tid, Option<Ptr>>, t: Tid): Option<Ptr> { if t in slots then slots[t] else None }

  predicate SlotOk(slots: map<Tid, Option<Ptr>>, holder: map<Ptr, Holder>, t: Tid)
  {
    var slot := SlotIn(slots, t);
    slot.Some? ==> slot.value in holder && holder[slot.value] == Slot(t)
  }

  predicate HolderOk(slots: map<Tid, Option<Ptr>>, holder: map<Ptr, Holder>, h: Ptr)
  {
    h in holder && holder[h].Slot? ==> SlotIn(slots, holder[h].t) == Some(h)
  }

  /** A handle is held by a slot if and only if it is in that slot. */
  ghost predicate SlotsOk(slots: map<Tid, Option<Ptr>>, holder: map<Ptr, Holder>)
  {
    && (forall t: Tid :: SlotOk(slots, holder, t))
    && (forall h: Ptr :: HolderOk(slots, holder, h))
  }

  lemma SlotMade(slots: map<Tid, Option<Ptr>>, t: Tid, t': Tid)
    requires t !in slots
    ensures SlotIn(slots[t := None], t') == SlotIn(slots, t')
  {
  }

  lemma SlotsOkAfterMaking(slots: map<Tid, Option<Ptr>>, holder: map<Ptr, Holder>, t: Tid)
    requires SlotsOk(slots, holder) && t !in slots
    ensures SlotsOk(slots[t := None], holder)
  {
    var slots', holder' := slots[t := None], holder;
    forall t': Tid ensures SlotOk(slots', holder', t') { assert SlotOk(slots, holder, t'); }
    forall h: Ptr ensures HolderOk(slots', holder', h) { assert HolderOk(slots, holder, h); }
  }

  lemma SlotsOkAfterTaking(slots: map<Tid, Option<Ptr>>, holder: map<Ptr, Holder>, t: Tid, h: Ptr)
    requires SlotsOk(slots, holder) && SlotIn(slots, t) == Some(h)
    ensures SlotsOk(slots[t := None], holder[h := Flight(t)])
  {
    assert SlotOk(slots, holder, t);
    var slots', holder' := slots[t := None], holder[h := Flight(t)];
    forall t': Tid ensures SlotOk(slots', holder', t') { assert SlotOk(slots, holder, t'); }
    forall h': Ptr ensures HolderOk(slots', holder', h') { assert HolderOk(slots, holder, h'); }
  }

  lemma SlotsOkAfterPutting(slots: map<Tid, Option<Ptr>>, holder: map<Ptr, Holder>, t: Tid, h: Ptr)
    requires SlotsOk(slots, holder) && SlotIn(slots, t) == None && h in holder && holder[h].Flight?
    ensures SlotsOk(slots[t := Some(h)], holder[h := Slot(t)])
  {
    var slots', holder' := slots[t := Some(h)], holder[h := Slot(t)];
    forall t': Tid ensures SlotOk(slots', holder', t') { assert SlotOk(slots, holder, t'); }
    forall h': Ptr ensures HolderOk(slots', holder', h') { assert HolderOk(slots, holder, h'); }
  }

  lemma SlotsOkAfterAdding(slots: map<Tid, Option<Ptr>>, holder: map<Ptr, Holder>, t: Tid, h: Ptr)
    requires SlotsOk(slots, holder) && h !in holder
    ensures SlotsOk(slots, holder[h := Flight(t)])
  {
    var holder' := holder[h := Flight(t)];
    forall t': Tid ensures SlotOk(slots, holder', t') { assert SlotOk(slots, holder, t'); }
    forall h': Ptr ensures HolderOk(slots, holder', h') { assert HolderOk(slots, holder, h'); }
  }

  lemma SlotsOkAfterRemoving(slots: map<Tid, Option<Ptr>>, holder: map<Ptr, Holder>, h: Ptr)
    requires SlotsOk(slots, holder) && h in holder && holder[h].Flight?
    ensures SlotsOk(slots, holder - {h})
  {
    var holder' := holder - {h};
    forall t': Tid ensures SlotOk(slots, holder', t') { assert SlotOk(slots, holder, t'); }
    forall h': Ptr ensures HolderOk(slots, holder', h') { assert HolderOk(slots, holder, h'); }
  }

  /** The handles a thread has in flight. */
  function FlightOf(dataSet: map<Ptr, PyExc>, holder: map<Ptr, Holder>, t: Tid): map<Ptr, PyExc>
    requires holder.Keys == dataSet.Keys
  {
    map h | h in dataSet && holder[h] == Flight(t) :: dataSet[h]
  }

  lemma FlightAfterUpdate(dataSet: map<Ptr, PyExc>, holder: map<Ptr, Holder>, h: Ptr, e: PyExc, at: Holder, t: Tid)
    requires holder.Keys == dataSet.Keys
    ensures FlightOf(dataSet[h := e], holder[h := at], t)
         == if at == Flight(t) then FlightOf(dataSet, holder, t)[h := e] else FlightOf(dataSet, holder, t) - {h}
  {
  }

  lemma FlightAfterMove(dataSet: map<Ptr, PyExc>, holder: map<Ptr, Holder>, h: Ptr, at: Holder, t: Tid)
    requires holder.Keys == dataSet.Keys && h in dataSet
    ensures FlightOf(dataSet, holder[h := at], t)
         == if at == Flight(t) then FlightOf(dataSet, holder, t)[h := dataSet[h]]
            else FlightOf(dataSet, holder, t) - {h}
  {
    assert dataSet[h := dataSet[h]] == dataSet;
    FlightAfterUpdate(dataSet, holder, h, dataSet[h], at, t);
  }

  lemma FlightAfterRemoval(dataSet: map<Ptr, PyExc>, holder: map<Ptr, Holder>, h: Ptr, t: Tid)
    requires holder.Keys == dataSet.Keys
    ensures FlightOf(dataSet - {h}, holder - {h}, t) == FlightOf(dataSet, holder, t) - {h}
  {
  }

  /** The exception in the slot of a thread. */
  function PendingIn(dataSet: map<Ptr, PyExc>, slot: Option<Ptr>): Option<PyExc>
  {
    if slot.Some? && slot.value in dataSet then Some(dataSet[slot.value]) else None
  }

  /** What a thread has. */
  function ViewOf(dataSet: map<Ptr, PyExc>, holder: map<Ptr, Holder>, slots: map<Tid, Option<Ptr>>, t: Tid): View
    requires holder.Keys == dataSet.Keys
  {
    View(FlightOf(dataSet, holder, t), PendingIn(dataSet, SlotIn(slots, t)))
  }

  lemma ViewAfterAdding(dataSet: map<Ptr, PyExc>, holder: map<Ptr, Holder>, slots: map<Tid, Option<Ptr>>,
                        t: Tid, h: Ptr, e: PyExc, t': Tid)
    requires holder.Keys == dataSet.Keys && SlotsOk(slots, holder) && h !in dataSet
    ensures var was := ViewOf(dataSet, holder, slots, t');
            ViewOf(dataSet[h := e], holder[h := Flight(t)], slots, t')
              == if t' == t then was.(inFlight := was.inFlight[h := e]) else was
  {
    FlightAfterUpdate(dataSet, holder, h, e, Flight(t), t');
    assert SlotOk(slots, holder, t');
    assert holder.Keys == dataSet.Keys;
  }

  lemma ViewAfterRemoving(dataSet: map<Ptr, PyExc>, holder: map<Ptr, Holder>, slots: map<Tid, Option<Ptr>>, h: Ptr,
                          t': Tid)
    requires holder.Keys == dataSet.Keys && SlotsOk(slots, holder) && h in dataSet && holder[h].Flight?
    ensures var was := ViewOf(dataSet, holder, slots, t');
            ViewOf(dataSet - {h}, holder - {h}, slots, t')
              == if t' == holder[h].t then was.(inFlight := was.inFlight - {h}) else was
  {
    FlightAfterRemoval(dataSet, holder, h, t');
    assert SlotOk(slots, holder, t');
  }

  /** The C++ result stands for the outcome, and owns one handle exactly when it carries a Python exception. */
  ghost predicate StandsFor(before: View, after: View, r: CppResult, o: Outcome<CppExc>)
  {
    match o
    case Return => r == Returned && after == before
    case Stuck => r == Aborted
    case Raise(Foreign(id)) => r == Threw(ForeignException(id)) && after == before
    case Raise(Std(message)) => r == Threw(StdException(message)) && after == before
    case Raise(Py(e)) =>
      && r.Threw? && r.x.PythonException? && r.x.handle !in before.inFlight
      && after == before.(inFlight := before.inFlight[r.x.handle := e])
  }

  class Exceptions {
    var dataSet: map<Ptr, PyExc>
    var slots: map<Tid, Option<Ptr>>
    var next: Ptr
    var holder: map<Ptr, Holder>

    /** The live handles are those in the slots and those in flight, each in one place. */
    ghost predicate Valid()
      reads this
    {
      && holder.Keys == dataSet.Keys
      && (forall h: Ptr :: h in dataSet ==> h < next)
      && SlotsOk(slots, holder)
    }

    ghost function Mine(t: Tid): View
      requires Valid()
      reads this
    {
      ViewOf(dataSet, holder, slots, t)
    }

    constructor ()
      ensures Valid() && forall t: Tid :: Mine(t) == View(map[], None)
    {
      dataSet, slots, next, holder := map[], map[], 0, map[];
    }

    /** Some step of some thread other than `t`. */
    method OtherStep(t: Tid)
      requires Valid()
      modifies this
      ensures Valid() && Mine(t) == old(Mine(t))
    {
      var t': Tid, what: nat, e: PyExc, h: Ptr := *, *, *, *;
      if t' != t {
        if what == 0 {
          var _ := NewHandle(t', e);
        } else if what == 1 {
          var _ := TakeException(t');
        } else if h in dataSet && holder[h] == Flight(t') {
          if what == 2 {
            Remove(t', h);
          } else if SlotIn(slots, t') == None {
            PutException(t', h);
          }
        }
      }
    }

    /** Other threads raise and catch in the meantime. */
    method Interfere(t: Tid)
      requires Valid()
      modifies this
      ensures Valid() && Mine(t) == old(Mine(t))
    {
      var steps: nat := *;
      while steps > 0
        invariant Valid() && Mine(t) == old(Mine(t))
      {
        OtherStep(t);
        steps := steps - 1;
      }
    }

    /** Once nothing is in flight and all slots are empty, no handle is left. */
    lemma EmptyAtRest()
      requires Valid()
      ensures (forall t: Tid :: Mine(t) == View(map[], None)) <==> dataSet == map[]
    {
      if dataSet != map[] {
        var h :| h in dataSet;
        assert holder[h].Flight? ==> h in Mine(holder[h].t).inFlight;
        assert HolderOk(slots, holder, h);
        assert holder[h].Slot? ==> Mine(holder[h].t).pending.Some?;
      }
    }

    // ---------------------------------------------------------------------------------------------
    // Single steps; what other threads have stays theirs
    // ---------------------------------------------------------------------------------------------

    method NewHandle(t: Tid, e: PyExc) returns (h: Ptr)
      requires Valid()
      modifies this
      ensures Valid() && h !in old(Mine(t)).inFlight
      ensures Mine(t) == old(Mine(t)).(inFlight := old(Mine(t)).inFlight[h := e])
      ensures forall t': Tid :: t' != t ==> Mine(t') == old(Mine(t'))
    {
      h := *;
      if h in dataSet {
        h := next;
      }
      next := if h < next then next else h + 1;
      forall t': Tid {
        ViewAfterAdding(dataSet, holder, slots, t, h, e, t');
      }
      SlotsOkAfterAdding(slots, holder, t, h);
      dataSet, holder := dataSet[h := e], holder[h := Flight(t)];
    }

    /** Each thread finds its own slot, which is made on first use. */
    method SlotOf(t: Tid) returns (slot: Option<Ptr>)
      requires Valid()
      modifies this
      ensures Valid() && t in slots && slot == SlotIn(old(slots), t) == SlotIn(slots, t)
      ensures dataSet == old(dataSet) && holder == old(holder) && slots - {t} == old(slots) - {t}
      ensures forall t': Tid :: Mine(t') == old(Mine(t'))
    {
      if t !in slots {
        forall t': Tid {
          SlotMade(slots, t, t');
        }
        SlotsOkAfterMaking(slots, holder, t);
        slots := slots[t := None];
      }
      slot := slots[t];
    }

    /** Moves the handle out of the slot. */
    method TakeException(t: Tid) returns (h: Option<Ptr>)
      requires Valid()
      modifies this
      ensures Valid() && h.Some? == old(Mine(t)).pending.Some?
      ensures h.None? ==> Mine(t) == old(Mine(t))
      ensures h.Some? ==> h.value !in old(Mine(t)).inFlight
      ensures h.Some? ==> Mine(t) == View(old(Mine(t)).inFlight[h.value := old(Mine(t)).pending.value], None)
      ensures forall t': Tid :: t' != t ==> Mine(t') == old(Mine(t'))
    {
      h := SlotOf(t);
      assert SlotOk(slots, holder, t);
      if h.Some? {
        forall t': Tid {
          FlightAfterMove(dataSet, holder, h.value, Flight(t), t');
        }
        SlotsOkAfterTaking(slots, holder, t, h.value);
        slots, holder := slots[t := None], holder[h.value := Flight(t)];
      }
    }

    /** Moves a handle into the slot, which is empty. */
    method PutException(t: Tid, h: Ptr)
      requires Valid() && h in Mine(t).inFlight && Mine(t).pending == None
      modifies this
      ensures Valid() && Mine(t) == View(old(Mine(t)).inFlight - {h}, Some(old(Mine(t)).inFlight[h]))
      ensures forall t': Tid :: t' != t ==> Mine(t') == old(Mine(t'))
    {
      forall t': Tid {
        FlightAfterMove(dataSet, holder, h, Slot(t), t');
      }
      assert SlotOk(slots, holder, t);
      SlotsOkAfterPutting(slots, holder, t, h);
      slots, holder := slots[t := Some(h)], holder[h := Slot(t)];
    }

    /** Puts a handle into the slot and moves the previous one out. */
    method Exchange(t: Tid, h: Ptr) returns (previous: Option<Ptr>)
      requires Valid() && h in Mine(t).inFlight
      modifies this
      ensures Valid() && previous.Some? == old(Mine(t)).pending.Some?
      ensures previous.None? ==> Mine(t) == View(old(Mine(t)).inFlight - {h}, Some(old(Mine(t)).inFlight[h]))
      ensures previous.Some? ==> previous.value !in old(Mine(t)).inFlight
      ensures previous.Some? ==>
        Mine(t) == View((old(Mine(t)).inFlight - {h})[previous.value := old(Mine(t)).pending.value],
                        Some(old(Mine(t)).inFlight[h]))
      ensures forall t': Tid :: t' != t ==> Mine(t') == old(Mine(t'))
    {
      previous := TakeException(t);
      PutException(t, h);
    }

    method Remove(t: Tid, h: Ptr)
      requires Valid() && h in Mine(t).inFlight
      modifies this
      ensures Valid() && Mine(t) == old(Mine(t)).(inFlight := old(Mine(t)).inFlight - {h})
      ensures forall t': Tid :: t' != t ==> Mine(t') == old(Mine(t'))
    {
      forall t': Tid {
        ViewAfterRemoving(dataSet, holder, slots, h, t');
      }
      SlotsOkAfterRemoving(slots, holder, h);
      dataSet, holder := dataSet - {h}, holder - {h};
    }

    // ---------------------------------------------------------------------------------------------
    // Operations, among other threads
    // ---------------------------------------------------------------------------------------------

    /** The deleter of a handle: asserts that it is registered, then removes it. */
    method Delete(t: Tid, h: Ptr)
      requires Valid() && h in Mine(t).inFlight
      modifies this
      ensures Valid() && Mine(t) == old(Mine(t)).(inFlight := old(Mine(t)).inFlight - {h})
    {
      var registered := h in dataSet;
      assert registered;
      Interfere(t);
      assert h in Mine(t).inFlight;
      Remove(t, h);
      Interfere(t);
    }

    /** Assigns to the slot, a handle or none; the handle that was there is deleted. */
    method SetPending(t: Tid, h: Option<Ptr>)
      requires Valid() && (h.Some? ==> h.value in Mine(t).inFlight)
      modifies this
      ensures Valid()
      ensures h.None? ==> Mine(t) == old(Mine(t)).(pending := None)
      ensures h.Some? ==> Mine(t) == View(old(Mine(t)).inFlight - {h.value}, Some(old(Mine(t)).inFlight[h.value]))
    {
      var previous;
      if h.Some? {
        previous := Exchange(t, h.value);
      } else {
        previous := TakeException(t);
      }
      Interfere(t);
      if previous.Some? {
        Delete(t, previous.value);
      }
    }

    /** A Python callback has caught an exception. */
    method SetExceptionFromPy(t: Tid, e: PyExc)
      requires Valid()
      modifies this
      ensures Valid() && Mine(t) == old(Mine(t)).(pending := Some(e))
    {
      var h := NewHandle(t, e);
      Interfere(t);
      SetPending(t, Some(h));
    }

    /** Back in C++ after a callback. */
    method ThrowIfPending(t: Tid) returns (r: CppResult)
      requires Valid()
      modifies this
      ensures Valid() && Mine(t).pending == None
      ensures StandsFor(View(old(Mine(t)).inFlight, None), Mine(t), r,
                        match old(Mine(t)).pending case None => Return case Some(e) => Raise(Py(e)))
    {
      var h := TakeException(t);
      Interfere(t);
      r := if h.Some? then Threw(PythonException(h.value)) else Returned;
    }

    /** A wrapper has caught an exception: a Python exception gives its handle up, any other gets a new one. Creating
        that decodes the message; if this raises, the handle is null. */
    method SetPendingException(t: Tid, x: Thrown)
      requires Valid() && !x.ForeignException? && (x.PythonException? ==> x.handle in Mine(t).inFlight)
      modifies this
      ensures Valid()
      ensures x.StdException? ==>
        Mine(t) == old(Mine(t)).(pending := if Utf8.WellFormed(x.message) then Some(ToPython(Std(x.message))) else None)
      ensures x.StdException? && Utf8.WellFormed(x.message) ==>
        Mine(t).pending.Some? && Says(Mine(t).pending.value, x.message)
      ensures x.PythonException? ==>
        Mine(t) == View(old(Mine(t)).inFlight - {x.handle}, Some(old(Mine(t)).inFlight[x.handle]))
    {
      var h: Option<Ptr>;
      match x {
        case PythonException(handle) => h := Some(handle);
        case StdException(message) =>
          h := CreateFromCpp(t, message);
          if Utf8.WellFormed(message) { ToPythonSays(message); }
      }
      SetPending(t, h);
    }

    method CreateFromCpp(t: Tid, message: seq<Utf8.Byte>) returns (h: Option<Ptr>)
      requires Valid()
      modifies this
      ensures Valid() && (h.Some? <==> Utf8.WellFormed(message))
      ensures h.None? ==> Mine(t) == old(Mine(t))
      ensures h.Some? ==> h.value !in old(Mine(t)).inFlight
      ensures h.Some? ==>
        && Mine(t) == old(Mine(t)).(inFlight := old(Mine(t)).inFlight[h.value := Djinni(Utf8.Decode(message))])
        && Says(Mine(t).inFlight[h.value], message)
    {
      if !Utf8.WellFormed(message) {
        return None;
      }
      Utf8.DecodeWellFormed(message);
      var handle := NewHandle(t, Djinni(Utf8.Decode(message)));
      Interfere(t);
      h := Some(handle);
    }

    /** Back in Python after a wrapper call; with an exception pending the returned pointer has to be null. */
    method CheckAndRaise(t: Tid, returnedNull: bool) returns (o: Outcome<PyExc>)
      requires Valid() && (Mine(t).pending.Some? ==> returnedNull)
      modifies this
      ensures Valid() && Mine(t) == old(Mine(t)).(pending := None)
      ensures o == match old(Mine(t)).pending case None => Return case Some(e) => Raise(e)
    {
      var h := TakeException(t);
      Interfere(t);
      if h.None? {
        return Return;
      }
      var registered := h.value in dataSet;
      assert registered by { assert h.value in Mine(t).inFlight; }
      assert returnedNull;
      o := Raise(dataSet[h.value]);
      Interfere(t);
      assert h.value in Mine(t).inFlight;
      Remove(t, h.value);
      Interfere(t);
    }

    /** A C++ exception that ends in a catch block takes its handle with it. */
    method Destroy(t: Tid, x: Thrown)
      requires Valid() && (x.PythonException? ==> x.handle in Mine(t).inFlight)
      modifies this
      ensures Valid()
      ensures Mine(t) == if x.PythonException? then old(Mine(t)).(inFlight := old(Mine(t)).inFlight - {x.handle})
                         else old(Mine(t))
    {
      if x.PythonException? {
        Delete(t, x.handle);
      }
    }

    // ---------------------------------------------------------------------------------------------
    // Running a program
    // ---------------------------------------------------------------------------------------------

    /** Python code does what it means; it leaves no handle and an empty slot. */
    method RunPy(t: Tid, c: PyCode) returns (o: Outcome<PyExc>)
      requires Valid() && Mine(t).pending == None
      modifies this
      ensures Valid() && o == PyMeaning(c, Actual) && (!o.Stuck? ==> Mine(t) == old(Mine(t)))
      decreases c, 1
    {
      match c
      case PyReturn => o := Return;
      case PyRaise(obj, ordinary) => o := Raise(User(obj, ordinary));
      case PyCall(callee, needsResult, rest) =>
        o := CallCpp(t, callee, needsResult);
        if o.Return? {
          o := RunPy(t, rest);
        }
      case PyTry(body, all, handler, reraise, rest) =>
        o := RunPy(t, body);
        if o.Return? {
          o := RunPy(t, rest);
        } else if o.Raise? && (all || Ordinary(o.x)) {
          var h := RunPy(t, handler);
          if !h.Return? {
            o := h;
          } else if !reraise {
            o := RunPy(t, rest);
          }
        }
    }

    /** Calls a wrapper, raises what is pending, and looks at the result. */
    method CallCpp(t: Tid, callee: CppCode, needsResult: bool) returns (o: Outcome<PyExc>)
      requires Valid() && Mine(t).pending == None
      modifies this
      ensures Valid() && o == AtWrapper(CppMeaning(callee, Actual), needsResult, Actual)
      ensures !o.Stuck? ==> Mine(t) == old(Mine(t))
      decreases callee, 3
    {
      var r := Wrapper(t, callee);
      if r.Unwinds? {
        return Stuck;
      }
      o := CheckAndRaise(t, r.NullPointer?);
      if o.Return? && needsResult && r.NullPointer? {
        o := Raise(AssertionFailed);
      }
    }

    /** C++ code does too; if it throws a Python exception it owns the handle, and nothing else. */
    method RunCpp(t: Tid, c: CppCode) returns (r: CppResult)
      requires Valid() && Mine(t).pending == None
      modifies this
      ensures Valid() && StandsFor(old(Mine(t)), Mine(t), r, CppMeaning(c, Actual))
      decreases c, 1
    {
      match c
      case CppReturn => r := Returned;
      case CppThrow(message) => r := Threw(StdException(message));
      case CppThrowForeign(id) => r := Threw(ForeignException(id));
      case CppCall(callee, rest) =>
        r := CallPython(t, callee);
        if r.Returned? {
          r := RunCpp(t, rest);
        }
      case CppTry(body, all, handler, rethrow, rest) =>
        r := RunCpp(t, body);
        if r.Returned? {
          r := RunCpp(t, rest);
        } else if r.Threw? && (all || !r.x.ForeignException?) {
          r := Handle(t, r, c, old(Mine(t)));
        }
    }

    /** A catch block for the exception `r`, and what follows it. */
    method Handle(t: Tid, r: CppResult, c: CppCode, ghost before: View) returns (r': CppResult)
      requires Valid() && Mine(t).pending == None && before.pending == None
      requires c.CppTry? && r.Threw? && (c.all || !r.x.ForeignException?)
      requires StandsFor(before, Mine(t), r, CppMeaning(c.body, Actual))
      modifies this
      ensures Valid() && StandsFor(before, Mine(t), r', CppMeaning(c, Actual))
      decreases c, 0
    {
      ghost var caught := Mine(t);
      r' := RunCpp(t, c.handler);
      if r'.Threw? {
        DestroyUnder(t, r.x, before, caught, CppMeaning(c.body, Actual), r', CppMeaning(c.handler, Actual));
      } else if r'.Returned? {
        if c.rethrow {
          r' := r;
        } else {
          Destroy(t, r.x);
          r' := RunCpp(t, c.rest);
        }
      }
    }

    /** The exception that was caught goes when the handler throws another one. */
    method DestroyUnder(t: Tid, x: Thrown, ghost before: View, ghost caught: View, ghost o: Outcome<CppExc>,
                        ghost h: CppResult, ghost o': Outcome<CppExc>)
      requires Valid() && StandsFor(before, caught, Threw(x), o) && StandsFor(caught, Mine(t), h, o') && h.Threw?
      modifies this
      ensures Valid() && StandsFor(before, Mine(t), h, o')
    {
      Destroy(t, x);
    }

    /** Calls a Python method and throws what is pending. */
    method CallPython(t: Tid, callee: PyCode) returns (r: CppResult)
      requires Valid() && Mine(t).pending == None
      modifies this
      ensures Valid() && StandsFor(old(Mine(t)), Mine(t), r, AtCallback(PyMeaning(callee, Actual), Actual))
      decreases callee, 3
    {
      var stuck := Callback(t, callee);
      if stuck {
        return Aborted;
      }
      r := ThrowIfPending(t);
    }

    /** The C function behind a C++ method. An exception derived from `std::exception` does not leave it: it is pending
        instead, if it could be created, and the result is null. */
    method Wrapper(t: Tid, callee: CppCode) returns (r: WrapperResult)
      requires Valid() && Mine(t).pending == None
      modifies this
      ensures Valid()
      ensures match CppMeaning(callee, Actual)
              case Return => r == Pointer && Mine(t) == old(Mine(t))
              case Stuck => r == Unwinds
              case Raise(x) =>
                && (if x.Foreign? then r == Unwinds else r == NullPointer)
                && (!x.Foreign? ==>
                      Mine(t) == old(Mine(t)).(pending := if SurvivesWrapper(x) then Some(ToPython(x)) else None))
                && (x.Std? && Utf8.WellFormed(x.message) ==>
                      Mine(t).pending.Some? && Says(Mine(t).pending.value, x.message))
      decreases callee, 2
    {
      var result := RunCpp(t, callee);
      if result.Returned? {
        return Pointer;
      }
      if result.Aborted? || result.x.ForeignException? {
        return Unwinds;
      }
      SetPendingException(t, result.x);
      r := NullPointer;
    }

    /** The callback behind a Python method: an exception derived from `Exception` is pending afterwards, any other one
        is gone. */
    method Callback(t: Tid, callee: PyCode) returns (stuck: bool)
      requires Valid() && Mine(t).pending == None
      modifies this
      ensures Valid() && stuck == PyMeaning(callee, Actual).Stuck?
      ensures !stuck ==> var o := PyMeaning(callee, Actual);
                         Mine(t) == old(Mine(t)).(pending := if o.Raise? && Ordinary(o.x) then Some(o.x) else None)
      decreases callee, 2
    {
      var o := RunPy(t, callee);
      if o.Raise? && Ordinary(o.x) {
        SetExceptionFromPy(t, o.x);
      }
      stuck := o.Stuck?;
    }
  }
}
