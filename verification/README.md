# Djinni's support libraries, modelled and proved

Djinni bridges C++ to Java, Objective-C and Python. This project models the parts of its support libraries and of the
code it generates where most can go wrong, and proves what they are for.

- **The proxy cache** (`ProxyCache`, `ProxySpec`, `ProxyProgress`, `ProxyCacheImpl`). Threads run `get` and `remove` one micro-step at a
  time under the mutex; proxies expire, handles are destroyed, and objects come and go (also at an address used before)
  between any two steps. An invariant holds in every reachable state; every run refines an atomic specification, and
  every `get` linearises. `ProxyProgress` says what can always happen: every `get` and every destruction of a handle can
  run to its end, and the object of a proxy can go. `Pimpl` is the class itself, its two methods under interference by everything else.
- **Objects crossing between C++ and Java** (`JniInterface`). Two caches composed, one for each direction, whose proxies
  are objects of the other side. Identity survives any run of crossings, every conversion has an answer, and no proxy
  ever stands for a proxy.
- **Text** (`Utf8`, `Utf16`, `JniStrings`, `JniSurrogates`). The UTF-8, UTF-16 and UTF-32 codecs over bit vectors, and
  the string loops. Well-formedness is defined by the grammar of section 4 of RFC 3629 and by the pairing of surrogates
  in section 2.2 of RFC 2781, without reference to the codecs.
- **Values and ownership between C++ and Python** (`PyValues`, `PyArrival`, `PyBridge`, `PySupport`). Strings, binaries,
  optionals, lists, sets, maps and records, nested at will, cross through handles that exactly one side owns, among
  other threads that do the same. C++ strings are any bytes: `PyArrival` says what becomes of a value when Python cannot
  decode all of them, and what then stays behind with no owner.
- **Exceptions between C++ and Python** (`PyException`). Call trees of alternating Python and C++ code with handlers on
  both sides, the pending slot of each thread, and the handles. Programs have two meanings: what they ought to do, and
  what they do with the catch clauses that there are.
- **The reference count of a wrapper** (`WrapperRef`), with decrement and deletion as separate steps.
- **JNI marshalling and flags** (`JniMarshal`, `JniFlags`). Round trips in both directions, each with the exact condition
  under which it is the identity.

## How concurrency is modelled

The cache and the reference count are transition systems, and what is proved about them holds of all interleavings. The
Python registries and the exception slots are classes whose methods call `Interfere` after every access to shared state:
any number of arbitrary steps of other threads. Its postcondition, that what this thread has is still there, is proved
from what the single steps (`Write`, `Erase`, `Forget`, `NewHandle`, `TakeException`, `PutException`, `Remove`) promise
about the threads that do not make them.

## What turned out false

- The UTF-8 decoder has no test for surrogates, so a Java string made from UTF-8 can be ill-formed UTF-16
  (`JniSurrogates.LoneSurrogateBytes`). `ToJavaWellFormedIff` says exactly when it is well formed, in terms of the bytes.
- The loop from UTF-16 to wide characters can read behind its buffer, which has no terminator, and can decode a unit that
  is not part of it (`JniStrings.ReadsBehindBuffer`, two inputs). `InsideIff` says exactly when it reads behind, and
  `WideDecodesItsUnitsIff` when it decodes exactly its own units.
- A C++ string that is not well-formed UTF-8 does not survive JNI marshalling (`JniMarshal.IllFormedStringChanges`).
  `CppRoundTripIff` and `JavaRoundTripIff` give the exact conditions for whole values.
- Nor does it reach Python: a container silently loses the element (`PyArrival.ElementIsLost`), a dict leaks the key
  (`KeyStaysBehind`), and a record does not come about and leaks the fields after it (`FieldStaysBehind`). `IntactIff`
  says exactly when the value arrives, `NothingLeftIff` exactly when nothing leaks, and `Left` what does.
- A C++ exception whose message is not UTF-8 disappears in Python (`PyException.MessageDisappears`), and so does, in C++,
  a Python exception that does not derive from `Exception` (`ExitDisappears`). `WrapperCrossingIff` and
  `CallbackCrossingIff` say exactly which exceptions cross as they should, `ResurfacesIff` which come out at any depth,
  and `PyAgrees` that programs in which no others cross do what they ought to. (That a program does so does not imply
  that no others cross: what disappears may have been about to be caught and ignored.)
- With more owners than its counter can tell apart, a wrapper is deleted under its owners
  (`WrapperRef.WrapAroundDeletesTooEarly`, for a counter of any width); `DropDeletesIff` says exactly when a decrement
  deletes.

Two things to know when reading the model. The class of a map or set proxy defines a generator `iter`, but its
constructor's `iter(py_obj)` is the built-in function: the iterator is bound to the contents at construction, and fails
once these have grown. And the JNI templates would lose an empty optional inside an optional
(`JniMarshal.InnerEmptyIsLost`), but the generator rejects such types (src/source/resolver.scala:324-326).

## Model

| member | source | states |
|---|---|---|
| ProxyCache.InvStep | support-lib/proxy_cache_impl.hpp:79-120 | Every micro-step of `get`, `remove`, handle destruction, expiry, allocation and release of objects keeps the invariant: entries belong to undestroyed handles, live proxies are mapped, the lock has one owner, and each thread knows what its program point needs. |
| ProxyCache.InvRun | support-lib/proxy_cache_impl.hpp:79-120 | The invariant holds after every run, whatever the interleaving. |
| ProxyCache.LiveProxyIsUnique | support-lib/proxy_cache_impl.hpp:84-97 | In every reachable state an object has at most one live proxy under a tag, and once published the map holds it. |
| ProxyCache.EntryMatchesItsObjectOnly | support-lib/proxy_cache_impl.hpp:103-120 | The entry found for a living object belongs to an undestroyed proxy of that very object, though addresses are reused and several removals may be pending. |
| ProxyCache.LiveIsNeverEvicted | support-lib/proxy_cache_impl.hpp:107-118 | No step takes a live mapped proxy out of the map: the expiry that precedes a late `remove` never hits its successor. |
| ProxyCache.QuiescentMapIsLive | support-lib/proxy_cache_impl.hpp:103-120 | With the lock free and no handle destruction outstanding, the map's entries are exactly the live proxies, each under its own key. |
| ProxyCache.GetReturnsProxyOfItsObject | support-lib/proxy_cache_impl.hpp:79-98 | A returning `get` has a live proxy of the object and tag asked for. |
| ProxyCache.ProxyKeepsItsObjectInRun | support-lib/proxy_cache_interface.hpp:130-146 | A proxy stands for the same object for ever, and one that has expired never lives again. |
| ProxyCache.GetIsStable | support-lib/proxy_cache_impl.hpp:84-89 | While a proxy lives, every later `get` for its object and tag returns it, whatever ran in between. |
| ProxySpec.RefinesStep | support-lib/proxy_cache_impl.hpp:84-97 | Each micro-step is a step of the atomic specification (give the one live proxy, else a fresh one) or invisible to it. |
| ProxySpec.RefinesRun | support-lib/proxy_cache_impl.hpp:79-120 | Every run of the concurrent cache is a run of the atomic specification. |
| ProxySpec.GetLinearises | support-lib/proxy_cache_impl.hpp:79-98 | Each `get` that returns took effect exactly once between its call and its return, with the result it returns. |
| ProxyProgress.GetReturns | support-lib/proxy_cache_impl.hpp:79-98 | In every reachable state with the mutex free, an idle thread can by its own steps run `get` for any living object and tag to its return, and then to its end. |
| ProxyProgress.NewObjectCanBeAskedFor | support-lib/proxy_cache_impl.hpp:79-84 | Directly after an object is made, `get` can be called for it. |
| ProxyProgress.CanExpire | support-lib/proxy_cache_interface.hpp:130-146 | A live proxy to which no thread holds a reference can expire, and none of its object and tag then lives. |
| ProxyProgress.RemoveCompletes | support-lib/proxy_cache_interface.hpp:133-145 | In every reachable state with the mutex free, an idle thread can by its own steps run the destruction of an expired proxy's handle to its end: the proxy is destroyed and no entry leads to it. |
| ProxyProgress.MutexIsReleased | support-lib/proxy_cache_impl.hpp:79-120 | In every reachable state in which the mutex is taken, its owner can release it by its own steps. |
| ProxyProgress.CanFreeIff | support-lib/proxy_cache_interface.hpp:133-145 | A living object can go exactly when all its proxies are destroyed and no `get` for it is under way; then another one can be made at its address. |
| ProxyCacheImpl.Pimpl.Get | support-lib/proxy_cache_impl.hpp:79-98 | Under interference at every micro-step, `get` is a run of the transition system and ends with the one live proxy of the object, mapped. |
| ProxyCacheImpl.Pimpl.Remove | support-lib/proxy_cache_impl.hpp:103-120 | Under interference, `remove` ends with no entry for the destroyed handle's proxy and every live proxy still mapped. |
| JniInterface.WorldOkAfter | support-lib/jni/djinni_support.hpp:371-475 | Every step of either cache keeps both invariants and keeps proxies apart from the objects that get proxies. |
| JniInterface.NoProxyOfProxy | support-lib/jni/djinni_support.hpp:371-413 | After any run, no proxy of the interface stands for a proxy of the interface, on either side. |
| JniInterface.RunsAreOk | support-lib/jni/djinni_support.hpp:371-475 | Every world that a run can lead to satisfies all of this, so the round trips below hold in it. |
| JniInterface.PlayOk | support-lib/jni/djinni_support.hpp:426-475 | Over any run of both caches these facts last, and what a proxy stands for never changes. |
| JniInterface.CppRoundTrip | support-lib/jni/djinni_support.hpp:371-413 | A C++ object (or null, or a live proxy) that went to Java and comes back after any run is the same object. |
| JniInterface.JavaRoundTrip | support-lib/jni/djinni_support.hpp:371-413 | A Java object that went to C++ and comes back after any run is the same object. |
| JniInterface.CacheStepsAreMoves | support-lib/jni/djinni_support.hpp:371-475 | What a cache can do alone it can do beside the other; an object that is no proxy, or a destroyed one, can go. |
| JniInterface.ToJavaAnswers | support-lib/jni/djinni_support.hpp:371-386 | Every C++ object that the program holds, and null, can be converted: a run of the cache that the conversion asks, or none, ends with an answer. |
| JniInterface.FromJavaAnswers | support-lib/jni/djinni_support.hpp:395-413 | The same for Java objects. |
| JniInterface.CppComesBack | support-lib/jni/djinni_support.hpp:371-413 | Whatever C++ object has gone to Java, and is still held, a run exists that brings it back, as itself. |
| JniInterface.JavaComesBack | support-lib/jni/djinni_support.hpp:371-413 | The same from Java. |
| Utf8.DecodeCheckIff | support-lib/jni/djinni_support.cpp:352-404 | The decoder accepts `(k, pt)` exactly when `pt` is below 0x110000 and the next `k` bytes are what the encoder emits for it. |
| Utf8.DecodeOfEncodeAll | support-lib/jni/djinni_support.cpp:406-415 | Decoding what the encoder made of any code points gives them back, surrogates included. |
| Utf8.EncodeAllWellFormed | support-lib/jni/djinni_support.cpp:512-532 | Encoding scalar values gives bytes in the grammar of RFC 3629. |
| Utf8.WellFormedIff | support-lib/jni/djinni_support.cpp:352-415 | Bytes are in that grammar exactly when they decode to scalar values whose encoding is those bytes. |
| Utf8.Resynchronise | support-lib/jni/djinni_support.cpp:352-415 | Cut before a byte that is no continuation byte, the two parts decode on their own, truncated sequences included. |
| Utf8.MalformedByteAlone | support-lib/jni/djinni_support.cpp:406-415 | A byte at which no encoded code point starts yields one U+FFFD and costs one byte only, also in a truncated sequence. |
| Utf8.EncodeValue | support-lib/jni/djinni_support.cpp:512-532 | The emitted bytes, read as digits in base 64 after section 3 of RFC 3629, have the value of the code point; beyond the range they are those of U+FFFD. |
| Utf16.EncodeValue | support-lib/jni/djinni_support.cpp:417-426 | The emitted units have the value of the code point by section 2.1 of RFC 2781; beyond the range there is U+FFFD. |
| Utf16.JoinOfSplit | support-lib/jni/djinni_support.cpp:417-426 | The two halves made of a code point are a high and a low surrogate, and joining them gives it back. |
| Utf16.SplitOfJoin | support-lib/jni/djinni_support.cpp:488-499 | Splitting what a pair of surrogates joins to gives the pair back. |
| Utf16.DecodeOfEncodeAllIff | support-lib/jni/djinni_support.cpp:417-426 | Encoding to UTF-16 and decoding is the identity exactly on scalar values. |
| Utf16.EncodeOfDecode | support-lib/jni/djinni_support.cpp:488-510 | Decoding UTF-16 and encoding again replaces each unpaired surrogate by U+FFFD and nothing else. |
| JniStrings.StringFromUtf8 | support-lib/jni/djinni_support.cpp:428-439 | The loop computes `ToJava`, its index lands on the length, and it makes at most one unit per byte. |
| JniStrings.Utf8FromString | support-lib/jni/djinni_support.cpp:534-549 | The loop computes `FromJava`, reads no further than the terminator, and makes at most three bytes per unit. |
| JniStrings.StringFromWide | support-lib/jni/djinni_support.cpp:454-462 | The wide loop computes the UTF-16 encoding. |
| JniStrings.WideFromUnits | support-lib/jni/djinni_support.cpp:564-572 | The loop decodes the buffer's units, and one more when they end in the first half of a pair, unless it reads behind what is readable; that is the other result. |
| JniStrings.InsideIff | support-lib/jni/djinni_support.cpp:564-572 | From any index the loop reads behind its buffer exactly when the last unit is a high surrogate and nothing is readable after it. |
| JniStrings.ReadsBehindBuffer | support-lib/jni/djinni_support.cpp:488-499 | Two inputs: a lone high surrogate makes the loop read behind the buffer, or decode a unit from there. |
| JniStrings.Utf8RoundTrip | support-lib/jni/djinni_support.cpp:428-439 | UTF-8 to Java and back is always well formed and idempotent, and the identity exactly on well-formed UTF-8. |
| JniStrings.Utf16RoundTrip | support-lib/jni/djinni_support.cpp:534-549 | Java to UTF-8 and back replaces each unpaired surrogate by U+FFFD; the identity exactly when all are paired. |
| JniStrings.WideRoundTrip | support-lib/jni/djinni_support.cpp:454-462 | Wide to UTF-16 and back is the identity exactly on scalar values, with nothing to look at past the end. |
| JniStrings.WideDecodesItsUnitsIff | support-lib/jni/djinni_support.cpp:564-572 | The wide loop decodes exactly its own units unless these end in a high surrogate whose low half lies behind them. |
| JniSurrogates.Utf8ThroughJavaToWide | support-lib/jni/djinni_support.cpp:352-439 | UTF-8 through a Java string to wide equals decoding the UTF-8 directly, exactly when the bytes encode no surrogate. |
| JniSurrogates.DecodesScalarsIff | support-lib/jni/djinni_support.cpp:352-404 | Bytes decode to scalar values exactly when they encode no surrogate. |
| JniStrings.ToJavaConcat | support-lib/jni/djinni_support.cpp:428-439 | UTF-8 may be converted in pieces that start at no continuation byte. |
| JniSurrogates.LoneSurrogateBytes | support-lib/jni/djinni_support.cpp:380-384 | Counterexample: three well-chosen bytes become a lone surrogate. |
| JniSurrogates.ToJavaWellFormedIff | support-lib/jni/djinni_support.cpp:352-439 | A Java string made from bytes is well-formed UTF-16 exactly when the bytes encode surrogates only as high-low pairs. |
| PyArrival.IntactIff | support-lib/py/djinni/pycffi_marshal.py:229-245 | For every C++ value of every type, whatever bytes its strings hold: what arrives in Python stands for that value exactly when all its strings are well-formed UTF-8, and is a value of the type in any case. |
| PyArrival.RaisesIff | support-lib/py/djinni/pycffi_marshal.py:183-198 | In terms of the strings, exactly when the conversion to Python raises. |
| PyArrival.NothingLeftIff | test-suite/generated-src/python/client_returned_record_helper.py:48-54 | In terms of the strings, exactly when no key and no field is left behind with no owner. |
| PyArrival.TotalWithout | test-suite/generated-src/cwrapper/dh__map_string_string.cpp:71-80 | What a map leaves behind does not depend on the order in which its entries are sent. |
| PyArrival.DecodableKept | test-suite/generated-src/python/dh__map_string_string.py:41-43 | With well-formed strings nothing raises and nothing is left behind. |
| PyArrival.ElementIsLost | test-suite/generated-src/python/dh__list_string.py:39-41 | Counterexample: a list with one ill-formed string arrives empty. |
| PyArrival.KeyStaysBehind | test-suite/generated-src/python/dh__map_string_string.py:41-43 | Counterexample: a dict entry with an ill-formed value is lost, and its key leaks. |
| PyArrival.FieldStaysBehind | test-suite/generated-src/python/client_returned_record_helper.py:48-54 | Counterexample: a record with an ill-formed field becomes a null handle, and its next field leaks. |
| PyValues.PyRoundTrip | support-lib/py/djinni/pycffi_marshal.py:206-262 | A Python value of any type, taken to C++ and back, is the same value. |
| PySupport.MultiSet.Add | support-lib/py/djinni/support.py:10-15 | Adds one occurrence and nothing else. |
| PySupport.MultiSet.Remove | support-lib/py/djinni/support.py:17-22 | The assertion fails exactly when the item is absent; otherwise one occurrence goes. |
| PySupport.MultiSet.Len | support-lib/py/djinni/support.py:24-25 | Zero exactly when the registry is empty. |
| PySupport.MultiSet.Has | support-lib/py/djinni/support.py:27-29 | True exactly for the items that were added more often than removed. |
| PyBridge.CarriesOneMore | example/generated-src/cwrapper/dh__rc.cpp:62-75 | Taking one more field on the wire to those already held, in whatever order they are given up, keeps the account of what is owned. |
| PyBridge.GrownTwice | example/generated-src/cwrapper/dh__rc.cpp:62-75 | What two stages leave behind adds up, pointer by pointer. |
| PyBridge.MapOneMore | example/generated-src/cwrapper/dh__map_int32_t_string.cpp:76-89 | The key an iterator yields next is a new key of the C++ map, and takes its own value with it. |
| PyBridge.Bridge.constructor | support-lib/py/djinni/support.py:6-8 | At the start every data set is empty and nobody owns anything. |
| PyBridge.Bridge.Interfere | support-lib/py/djinni/support.py:5-29 | Any number of arbitrary steps of other threads (allocating, also at addresses used before, changing, giving up, forgetting) leave what this thread has. |
| PyBridge.Bridge.Unregister | support-lib/py/djinni/pycffi_marshal.py:335-340 | With other threads running between the assertion and the removal, neither fails for a handle we own, and only it goes. |
| PyBridge.Bridge.WireToPy | support-lib/py/djinni/pycffi_marshal.py:183-351 | Python gets what arrives of the value or the conversion raises; either way the one resource it came with is given up. |
| PyBridge.Bridge.PyToWire | support-lib/py/djinni/pycffi_marshal.py:353-368 | Python puts on the wire the one new resource that stands for the value, or none where none is needed. |
| PyBridge.Bridge.ListToWire | test-suite/generated-src/cwrapper/dh__list_string.cpp:65-74 | Ends owning one new handle, to a Python list of the elements that arrived, in order; what it leaves behind is exactly `Left`. |
| PyBridge.Bridge.ListToCpp | example/generated-src/cwrapper/dh__list_record_rc.cpp:71-81 | Ends with the converted elements in order, owning what it owned before it got the handle. |
| PyBridge.Bridge.SetToWire | test-suite/generated-src/cwrapper/dh__set_string.cpp:65-73 | Ends owning one new handle, to the set of the keys that could be decoded, whatever the order of iteration, and leaves nothing behind. |
| PyBridge.Bridge.PythonNext | example/generated-src/python/dh__set_int32_t.py:37-44 | `next` raises exactly when the object has grown since its iterator was made or nothing is left; else it yields a key not yielded before. |
| PyBridge.Bridge.SetToCpp | example/generated-src/cwrapper/dh__set_int32_t.cpp:69-79 | The size-counted `next` loop gets the whole set, each element once, exactly when the iterator was made over the present contents and not used yet; the handle is given up in any case. |
| PyBridge.Bridge.MapToWire | test-suite/generated-src/cwrapper/dh__map_string_string.cpp:71-80 | Ends owning one new handle, to the dict of those entries whose key and value arrived; what it leaves behind, keys among it, is exactly `Left`. |
| PyBridge.Bridge.PythonDictAdd | test-suite/generated-src/python/dh__map_string_string.py:41-43 | The value is taken over before the key: if it raises, the key is left behind, and otherwise nothing is. |
| PyBridge.Bridge.MapToCpp | test-suite/generated-src/cwrapper/dh__map_string_int32_t.cpp:81-94 | The key is lent to the lookup of its value before it is taken over; the loop gets the whole map exactly when the iterator was made over the present contents and not used yet. |
| PyBridge.Bridge.RecordToWire | test-suite/generated-src/cwrapper/dh__client_returned_record.cpp:47-58 | All fields cross before the Python constructor takes each over; ends owning one handle to the record, or none with the untaken fields left behind. |
| PyBridge.Bridge.FieldsToPy | test-suite/generated-src/python/client_returned_record_helper.py:48-54 | The arguments are taken over in order up to the first that raises; exactly those after it are left behind. |
| PyBridge.Bridge.RecordToCpp | example/generated-src/cwrapper/dh__rc.cpp:77-88 | All fields are fetched, then each taken over; ends with the converted record and no handle. |
| PyBridge.Bridge.CppToPy | test-suite/generated-src/cwrapper/dh__list_list_string.cpp:65-74 | For every C++ value of every type: Python gets exactly what arrives of it, the thread owns afterwards what it owned before, and has left behind exactly `Left`, under any interleaving. |
| PyBridge.Bridge.PyToCpp | test-suite/generated-src/cwrapper/dh__list_list_string.cpp:76-86 | A Python value of any type reaches C++ unchanged, ownership is balanced and nothing is left behind, under any interleaving. |
| PyBridge.Bridge.ThereAndBack | example/generated-src/python/dh__list_record_rc.py:21-48 | A C++ value that Python takes over and hands back in a fresh handle is the value it was exactly when all its strings are well-formed UTF-8; nothing is left behind exactly when it is `Kept`. |
| PyBridge.Bridge.DataSetsEmptyIff | example/generated-src/python/dh__list_record_rc.py:16-19 | The data sets are empty exactly when no thread has a handle or has left one behind. |
| PyException.PyRaisesOnlyWhatWasRaised | support-lib/cwrapper/wrapper_marshal.cpp:92-105 | What comes out of a program, as it actually runs, was raised in it (a user's exception object, or the Djinni exception of a C++ message), or is that of a failed assertion. |
| PyException.WrapperCrossingIff | support-lib/cwrapper/wrapper_marshal.hpp:126-130 | A C++ exception crosses as it should exactly when it derives from `std::exception` and its message, if C++ threw it, is well-formed UTF-8. |
| PyException.CallbackCrossingIff | test-suite/generated-src/python/foo_listener_bf.py:129-135 | A Python exception crosses as it should exactly when it derives from `Exception`. |
| PyException.PyAgrees | support-lib/cwrapper/wrapper_marshal.cpp:84-125 | A program in which all exceptions that cross are of these kinds does what it would do in one language. |
| PyException.MessageDisappears | support-lib/py/djinni/exception.py:16-22 | Counterexample: a C++ exception whose message is not UTF-8 leaves no trace. |
| PyException.ExitDisappears | test-suite/generated-src/python/foo_listener_bf.py:129-135 | Counterexample: a Python exception that does not derive from `Exception` leaves no trace. |
| PyException.ResurfacesIff | support-lib/cwrapper/wrapper_marshal.hpp:126-143 | Through any number of alternating frames, with handlers that raise again, as they actually run, the exception raised at the bottom comes out at the top as the same object exactly when it derives from `Exception`. |
| PyException.RaisedAtBottom | test-suite/generated-src/python/foo_listener_bf.py:129-135 | An object raised in Python below any number of frames comes out as that object if it derives from `Exception`, and otherwise not at all. |
| PyException.ThrownAtBottom | support-lib/cwrapper/wrapper_marshal.cpp:99-101 | A C++ exception thrown below any number of frames comes out as a Djinni exception whose text, encoded, is the message. |
| PyException.ToPythonKeepsApart | support-lib/cwrapper/wrapper_marshal.cpp:92-105 | Different C++ exceptions ought to be different exceptions in Python. |
| PyException.SaysOneThing | support-lib/py/djinni/exception.py:16-22 | A message determines the Djinni exception that says it. |
| PyException.Exceptions.Interfere | support-lib/cwrapper/thread_local.hpp:61-69 | Any number of arbitrary steps of other threads leave this thread's handles and slot. |
| PyException.Exceptions.RunPy | support-lib/py/djinni/exception.py:29-48 | Running any Python code through the machinery, under interference, has exactly the outcome of its actual meaning, and leaves the slot empty and no handle behind. |
| PyException.Exceptions.RunCpp | support-lib/cwrapper/wrapper_marshal.cpp:84-90 | The same for C++ code; if it throws a Python exception, it owns exactly one more handle, to that very object. |
| PyException.Exceptions.Wrapper | test-suite/generated-src/cwrapper/cw__foo_listener_bf.cpp:169-181 | An exception that derives from `std::exception` does not leave a wrapper function: the result is null, and it is pending, unless its message cannot be decoded; what is pending for a C++ exception says its message. |
| PyException.Exceptions.Callback | test-suite/generated-src/python/foo_listener_bf.py:129-135 | An exception that leaves a Python method is pending after its callback exactly when it derives from `Exception`. |
| PyException.Exceptions.SetPendingException | support-lib/cwrapper/wrapper_marshal.cpp:92-118 | A Python exception gives its own handle to the slot; any other gets a new Djinni exception that says its message, or a null handle if that cannot be decoded; what was in the slot is deleted. |
| PyException.Exceptions.TakeException | support-lib/cwrapper/wrapper_marshal.cpp:50-54 | Moves the handle out of this thread's slot, and out of no other. |
| PyException.Exceptions.SlotOf | support-lib/cwrapper/thread_local.hpp:61-69 | The slot a thread finds or makes is its own, and no thread's view changes. |
| PyException.Exceptions.CheckAndRaise | support-lib/py/djinni/exception.py:30-43 | Raises the pending exception object, removes its handle, and no assertion fails. |
| PyException.Exceptions.EmptyAtRest | support-lib/py/djinni/exception.py:10-13 | The data set is empty exactly when no thread has a handle in flight or in its slot. |
| WrapperRef.CountsOwnersAndNeverUsesAfterDelete | test-suite/generated-src/cwrapper/cw__foo_listener_bf.cpp:33-41 | In any run the count is the number of owners, there is at most one deletion, and no step is possible after it. |
| WrapperRef.DeletedExactlyOnce | test-suite/generated-src/cwrapper/cw__foo_listener_bf.cpp:36-41 | When all owners have dropped their reference and have returned, there was exactly one deletion; while one is left, none. |
| WrapperRef.LastDropperDeletes | test-suite/generated-src/cwrapper/cw__foo_listener_bf.cpp:36-41 | The one who deletes made the last decrement, right before, and no owner was left. |
| WrapperRef.CountsModulo | test-suite/generated-src/cwrapper/cw__foo_listener_bf.cpp:33-38 | Without any bound on the owners, and for a counter of any width, the count is their number modulo the width. |
| WrapperRef.DropDeletesIff | test-suite/generated-src/cwrapper/cw__foo_listener_bf.cpp:36-41 | Exactly when a decrement leads to deletion; up to as many owners as the counter has values, exactly when it drops the last reference. |
| WrapperRef.WrapAroundDeletesTooEarly | test-suite/generated-src/cwrapper/cw__foo_listener_bf.cpp:33-41 | Counterexample for a counter of any width, with one owner more than it has values: the first decrement deletes, and others still use the wrapper. |
| WrapperRef.OthersKeepOurs | test-suite/generated-src/cwrapper/cw__foo_listener_bf.cpp:33-41 | No step that is not ours takes a reference of ours, or a deletion that is ours to do. |
| WrapperRef.Wrapper.AddReference | test-suite/generated-src/cwrapper/cw__foo_listener_bf.cpp:33-35 | Under interference, this thread has its references and one more, and the wrapper is not deleted. |
| WrapperRef.Wrapper.DropReference | test-suite/generated-src/cwrapper/cw__foo_listener_bf.cpp:36-41 | Deletes exactly if this was the last reference, and then nobody has one and there was one deletion; under interference between decrement and deletion, our other references stay and no deletion of ours is outstanding. |
| JniMarshal.NumberRoundTrip | support-lib/jni/Marshal.hpp:37-59 | A C++ integer survives its Java box; a Java number survives C++ exactly when the C++ type has it. |
| JniMarshal.BoxIsSmallest | support-lib/jni/Marshal.hpp:92-182 | The Java class of a boxed integer has all values of the C++ type, and no smaller class has. |
| JniMarshal.RangeIsOfBits | support-lib/jni/Marshal.hpp:92-182 | The ranges are those of 8, 16, 32 and 64 bits, in two's complement for the signed types. |
| JniMarshal.CastCongruent | support-lib/jni/Marshal.hpp:37-38 | Converting a number changes it by a multiple of the width of the type, so what does not fit wraps around. |
| JniMarshal.KeyRoundTrip | support-lib/jni/Marshal.hpp:199-216 | A key that went to Java and back is always a clean key, and the same one exactly if it was clean. |
| JniMarshal.CppRoundTripIff | support-lib/jni/Marshal.hpp:333-571 | For every type, whatever order containers iterate in, `toCpp(fromCpp(v)) == v` exactly when all strings are well-formed UTF-8 (and, in types that only the templates admit, no optional contains an empty one). |
| JniMarshal.IllFormedStringChanges | support-lib/jni/Marshal.hpp:199-216 | Counterexample: a string that is not UTF-8 comes back as another one. |
| JniMarshal.JavaRoundTripIff | support-lib/jni/Marshal.hpp:333-571 | For every type, `fromCpp(toCpp(j)) == j` exactly when surrogates are paired and numbers fit their C++ type. |
| JniMarshal.ToJava | support-lib/jni/Marshal.hpp:333-571 | The conversions as written end in something the relation allows, of the class that the way back asserts. |
| JniMarshal.ToCpp | support-lib/jni/Marshal.hpp:333-571 | The same for the way back, with a value of the C++ type as result. |
| JniMarshal.MapToJava | support-lib/jni/Marshal.hpp:555-570 | Visits each C++ entry once, in some order, and puts what it has become: the result is that of these puts, also when keys merge. |
| JniMarshal.LastStays | support-lib/jni/Marshal.hpp:561-568 | Of entries put under the same key the last stays. |
| JniMarshal.MapToCpp | support-lib/jni/Marshal.hpp:525-553 | Visits each Java entry once, by counting iterator steps, and emplaces what it has become: the result is that of these emplacements. |
| JniMarshal.FirstStays | support-lib/jni/Marshal.hpp:540-551 | Of entries emplaced under the same key the first stays. |
| JniMarshal.CppThereAndBack | support-lib/jni/Marshal.hpp:333-571 | The two conversions one after the other give the value back exactly when it is clean. |
| JniMarshal.JavaThereAndBack | support-lib/jni/Marshal.hpp:333-571 | The same from Java. |
| JniFlags.Flags | support-lib/jni/djinni_support.cpp:284-297 | The flags have exactly the bits of the ordinals iterated over. |
| JniFlags.Create | support-lib/jni/djinni_support.cpp:299-312 | The set has exactly the ordinals below `bits` whose bit is set. |
| JniFlags.OrderDoesNotMatter | support-lib/jni/djinni_support.cpp:290-295 | Two orders of the same elements give the same flags. |
| JniFlags.FlagsOfCreated | support-lib/jni/djinni_support.cpp:284-312 | Flags to a set and back keep exactly the low `bits` bits, whatever the order of iteration. |
| JniFlags.FlagsKeptIff | support-lib/jni/djinni_support.cpp:284-312 | Flags survive exactly when no bit at or above `bits` is set. |
| JniFlags.CreatedOfFlags | support-lib/jni/djinni_support.cpp:284-312 | A set of ordinals below `bits` comes back from its flags, whatever the order of iteration. |

## Left out

- The runtimes of Java (JNI) and Python (CFFI): references, weak references, hash tables, iterators and `new_handle` are
  abstract objects with the contract the code relies on. Local references and exceptions raised inside them are not part
  of this model.
- Objective-C and Swift, JSON, dates, floats, enums with explicit values, comparisons of records, constants.
- Allocators that throw inside `get`, `Handle::assign`, and an explicit call to `_djinni_private_destroy` while the proxy
  is still reachable. The allocator returns a proxy for the very key it was given, and a handle is destroyed only after
  its proxy has expired; without this the invariants do not hold.
- ProxyCacheImpl.Pimpl.Get: starts when its thread is granted the mutex; waiting for it is in the transition system only.
- ProxyCacheImpl.Pimpl.Remove: starts when its thread is granted the mutex; waiting for it is in the transition system only.
- Two-byte wide characters, and strings longer than a `jsize` can count.
- PyBridge.Bridge.Unregister: the data sets are values inside the class, not `MultiSet` objects; `PySupport.MultiSet` is
  proved apart to be a multiset.
- PyBridge.Bridge.SetToCpp: what C++ computes with the null that a raising `next` returns (a zero, or a null pointer it
  follows) is not part of this model; the result None stands for it.
- PyBridge.Bridge.MapToCpp: the same.
- PyBridge.Bridge.PyToCpp: the Python value has the type that C++ expects, and its strings have a UTF-8 encoding, that is
  no surrogates; the exceptions that other values raise are not part of this model, nor are threads that change an object
  while it crosses. Keys are integers or strings, not optional ones.
- PyException.Exceptions.RunCpp: callbacks return nothing, a primitive or an interface. Those that return strings,
  binaries or records convert a null pointer before they look at the slot, so an exception there is not translated.
- PyException.Exceptions.RunPy: wrapper functions return nothing or a pointer; the assertion that a result is null does
  not hold for a primitive. A program is given as the tree of calls it makes. What happens after a C++ exception has
  unwound into C code is undefined, and the model stops there.
- WrapperRef.Wrapper.AddReference: never so many owners that the counter wraps around; the lemmas about wrap-around are
  about the transition system.
- JniFlags.Create: ordinals have six bits, enough for the 32 flags of an `unsigned`; `bits` is below 64 and not negative.
- JniMarshal.ToCpp: null where no optional is expected, and objects of another class, fail an assertion in the source and
  are excluded.
