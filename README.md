# AirBnB clone console: a verified model

This project models, in Dafny, the core of the AirBnB clone command interpreter. It has three parts:

- **The object table** (`FileStorage`). Each object is kept under the key `"<Type>.<id>"`. `save` writes the table out as a document of `to_dict` mappings. `reload` rebuilds the table wholesale from that document, choosing each constructor by the entry's `"__class__"` field. Two constant tables go with it: `classes` (seven class names) and `attributes` (per-class coercions).
- **The object contract** (`BaseModel`). An object is built either fresh (a minted id, two clock readings, registered in the table) or from a mapping (adopted verbatim, the timestamps parsed, not registered). It also has `to_dict`, `__str__`, and `save` (bump `updated_at`, then flush the table).
- **The command layer** (`HBNBCommand`). It covers:
  - the dotted-call rewrite `_precmd`;
  - the verb handlers `create`, `show`, `destroy`, `all`, `count` and `update`, each with its chain of checks and fixed messages;
  - `update_dict`;
  - the route from an input line through `onecmd` and `default` to a handler.

## Modules

| file | module | what it holds |
|---|---|---|
| wrappers.dfy | Wrappers | `Option` |
| dicts.dfy | Dicts | Python's insertion-ordered `dict` as an association list: lookup, assignment (in place, or appended for a new key), deletion |
| decimal.dfy | Decimal | decimal digits and `str(int)` |
| timestamps.dfy | Timestamps | `datetime` values, `isoformat`, and `strptime` with `%Y-%m-%dT%H:%M:%S.%f` |
| py_values.dfy | PyValues | the attribute values (`str`, `int`, `float`, `bool`, `None`, `list`, `dict`, `datetime`) with their `str()` and `repr()` |
| registry.dfy | Registry | `classes()`, `attributes()` and what each coercion does |
| models.dfy | Models | objects, `__init__` from a mapping, `to_dict`, `__str__`, the `to_dict` round trip |
| storage.dfy | Storage | the `Store` class (the table, the file, a ghost save counter) with `new`, `all`, `save`, `reload` |
| lifecycle.dfy | Lifecycle | fresh `__init__` (registering) and `BaseModel.save` |
| parsing.dfy | Parsing | `onecmd`'s line parsing, the regular expressions of `_precmd` and `do_update`, `split(' ')` |
| console.dfy | Console | every handler, `update_dict`, `onecmd` |

### How the model is built

- **Objects are values.** `Obj(cls, attrs)` is the class plus the instance `__dict__` in insertion order. The store holds each object under exactly one key. So an attribute assignment on "the object under `key`" is an update of that table entry. `Store.objects` is the live table that `all()` returns, and the handlers reassign it exactly where the source mutates `storage.all()`.
- **The file is a `FileState`.** Its states are `Absent`, `Corrupt` (a `save` whose `to_dict` or `json.dump` raised after the file was truncated) and `Written(doc)`.
- **Outcomes.** A handler's effect is the lines it prints together with the new store. An exception is the outcome `Crash`, and the store then stays as the exception left it.
- **Names Python treats specially.** An instance attribute named `save` or `to_dict` hides the method of that name, and calling it raises `TypeError`, since no attribute value is callable (`Lifecycle.SaveModel`, `Models.ToDict`). A mapping with a key `self` cannot be passed as `**kwargs` to `__init__(self, *args, **kwargs)` (`Models.FromKwargs`).

### Where the specification and the code disagree

- **Class-level defaults.** The specification's example shows `show State <id>` listing `'name': ''`. In the code, class-level defaults are not in the instance `__dict__`, so neither `__str__` nor `to_dict` lists them. The model follows the code.
- **`update_dict`'s "instance id missing" branch.** This branch (console.py:98-99) cannot be reached. `_precmd` always passes a string id, so the model has no such path.
- **`create` keyword arguments.** `create` takes the whole argument as a class name (console.py:152). The `key="value"` form the tests expect is therefore "class doesn't exist".

## Model

| member | source | states |
|---|---|---|
| Registry.ClassNamed | models/engine/file_storage.py:64-72 | `classes()[name]` is the class whose `__name__` is `name`, and each of the seven classes is found under its own name |
| Registry.RegistryKeys | models/engine/file_storage.py:99-139 | `classes()` and `attributes()` are keyed by the same seven names, in the order BaseModel, User, State, City, Amenity, Place, Review, and no name holds a dot |
| Registry.Coerce | models/engine/file_storage.py:100-138 | `str` always succeeds and gives the value's `str()`; `datetime.datetime` with one argument always raises; `int`, `float` and `list` give a value of their own kind or raise |
| Models.Fresh | models/base_model.py:34-37 | a fresh object has exactly `id`, `created_at`, `updated_at`, in that order, holding the minted id and the two clock readings, and its store key is `"<Type>.<id>"` |
| Lifecycle.Init | models/base_model.py:34-38 | fresh construction registers the new object under `"<Type>.<id>"`, overwriting any entry with that key, and the file is not touched |
| Models.TouchKeeps | models/base_model.py:45 | `save`'s stamp sets `updated_at` to `now` and leaves the class, the store key and every other attribute alone |
| Lifecycle.SaveMonotone | models/base_model.py:45-46 | under a clock that does not run backwards, `created_at <= updated_at` still holds after `save`, and `id` and `created_at` are unchanged |
| Lifecycle.SaveModel | models/base_model.py:45-46 | `save()` restamps the stored object and then flushes the whole table: exactly one more save, and the file is the flushed table; when an instance attribute `save` hides the method, the call raises and nothing changes |
| Lifecycle.Replace | console.py:290 | `setattr` on the stored object replaces that one entry, keeps its class, and saves nothing |
| Models.ToDictContents | models/base_model.py:49-61 | `to_dict` has the instance's keys plus `"__class__"`, the class name under `"__class__"`, the `isoformat` of both timestamps, every other value unchanged; it fails exactly when an instance attribute `to_dict` hides the method or a timestamp is missing or not a datetime |
| Models.ToDictNames | models/base_model.py:57-61 | `to_dict` always holds `"__class__"`, and holds `self` only when the instance does |
| Models.ToDictDistinct | models/base_model.py:57-61 | `to_dict` repeats no key |
| Models.DescribedClassOf | models/base_model.py:70 | the class name can be read back from the bracketed head of `__str__` |
| Models.Reconstruct | models/base_model.py:24-33 | the loop over a non-empty mapping of keyword arguments builds exactly the adopted instance dictionary, or fails where a timestamp does not parse; it mints no id and registers nothing |
| Models.AdoptAllEntries | models/base_model.py:25-33 | construction from a mapping keeps every key in order, verbatim except the two parsed timestamps, and fails exactly when a timestamp does not parse |
| Models.AdoptAllPrefixFails | models/base_model.py:25-33 | once one keyword argument raises, construction raises whatever follows it |
| Models.StampsReadBack | models/base_model.py:26-31 | `isoformat` text under both timestamp keys (non-zero microseconds) is parsed back to the same datetimes |
| Models.ToDictRoundTrip | models/base_model.py:16-61 | for an object with no attribute `to_dict` or `self` and timestamps with non-zero microseconds, the call `cls(**to_dict(o))` gives `o` back with its `"__class__"` recorded, and that object's `to_dict` equals `to_dict(o)` |
| Timestamps.ParseTimestamp | models/base_model.py:27-28 | what `strptime` accepts is a valid date and time |
| Timestamps.IsoFormatRoundTrip | models/base_model.py:27-28 | `strptime(isoformat(t))` gives `t` back when the microseconds are not zero |
| Timestamps.IsoFormatZeroMicroRejected | models/base_model.py:27-28 | with zero microseconds `isoformat` drops the fraction, and `strptime` with `.%f` rejects the result |
| Timestamps.ParseTimestampCanonical | models/base_model.py:27-28 | a 26-character text that parses (with non-zero microseconds) is the `isoformat` of what it parses to |
| Storage.Store.constructor | models/engine/file_storage.py:18-19 | the table starts empty and the save counter at zero, whatever file is on disk |
| Storage.Store.New | models/engine/file_storage.py:37-38 | `new(obj)` stores `obj` under `"<Type>.<id>"`, overwriting an entry with that key; no other key changes and the file is untouched |
| Storage.Store.Save | models/engine/file_storage.py:44-47 | `save()` leaves the table as it is and turns the file into the flushed document |
| Storage.DocOf | models/engine/file_storage.py:46 | the document has the table's keys in order, each mapped to that object's `to_dict()`; it fails exactly when some `to_dict()` raises, an attribute `to_dict` hiding the method included |
| Storage.DocDistinct | models/engine/file_storage.py:46 | the document's keys are exactly the table's keys, none repeated |
| Storage.SavedEncodable | models/engine/file_storage.py:47 | a savable object's `to_dict` holds only values `json.dump` can write |
| Storage.SaveWrites | models/engine/file_storage.py:44-47 | a table of savable objects (none with an attribute `to_dict` or `self`) is always written out in full |
| Storage.Store.Reload | models/engine/file_storage.py:82-89 | no file: nothing changes; an unreadable file or an entry that cannot be rebuilt: the table is untouched; otherwise the table is replaced wholesale by the rebuilt document |
| Storage.LoadDoc | models/engine/file_storage.py:87 | the rebuilt table has the document's keys in order, each entry rebuilt by the class its `"__class__"` names; it fails exactly when some entry cannot be rebuilt (an unknown class, a key `self` the call cannot bind, a timestamp that does not parse) |
| Storage.LoadDistinct | models/engine/file_storage.py:87-89 | after a reload the table's keys are exactly the document's keys |
| Storage.ClassOfSaved | models/engine/file_storage.py:87 | the `"__class__"` of a saved entry names the class of the object saved |
| Storage.SaveAgrees | models/engine/file_storage.py:46 | when every key names its object's class, so does every document entry's `"__class__"` |
| Storage.LoadAgrees | models/engine/file_storage.py:87 | a document whose keys match its `"__class__"` fields reloads into a table whose keys match their objects' classes |
| Storage.SaveReloadRoundTrip | models/engine/file_storage.py:44-89 | for savable objects (no attribute `to_dict` or `self`), `save` then `reload` gives every key back, in order, with the same class, id, timestamps and fields (plus `"__class__"`), and saving again writes the same document |
| Storage.SaveTaggedSame | models/engine/file_storage.py:44-47 | recording `"__class__"` on an object does not change what `save` writes for it |
| Parsing.ParseLine | console.py:27-37 | an empty stripped line has no command, and a command always comes with an argument |
| Parsing.Dispatch | console.py:27-37 | only a handler name runs a handler; the empty line, and only the empty line, goes to `emptyline`; every other line goes to `default` |
| Parsing.Dotted | console.py:52 | a matched `<class>.<method>(<args>)` has a word-character class and a non-empty word-character method |
| Parsing.DottedParses | console.py:52 | `<C>.<m>(<a>)`, with or without a final newline, matches with exactly those three groups when `a` holds no `)` |
| Parsing.DottedShape | console.py:52 | a line that matches is `<C>.<m>(<a>)` with an optional final newline |
| Parsing.UidArgs | console.py:60-66 | an argument text not opening with `"` is the id as a whole, with nothing after it |
| Parsing.UidQuotedAlone | console.py:60-63 | `"<id>"` gives the id and nothing after it |
| Parsing.PrecmdNoArgs | console.py:52-80 | `C.m()` becomes `m C  ` |
| Parsing.PrecmdById | console.py:52-80 | `C.m("<id>")` becomes `m C <id> ` |
| Parsing.PrecmdUpdate | console.py:69-78 | `C.update("<id>", "<name>", <v>)` becomes `update C <id> <name> <v>`: the name's quotes dropped, `v` passed as it is |
| Parsing.PrecmdUpdateDict | console.py:69-73 | `C.update("<id>", {...})` goes to `update_dict` with the class, the id and the braces text |
| Parsing.RewrittenDispatch | console.py:78-79 | `onecmd` on the rewritten command runs the method's handler with the stripped rest, or hands the stripped line to `default` |
| Parsing.RewrittenNoRematch | console.py:78-79 | `_precmd` does not match the stripped rewritten line again |
| Parsing.RewrittenSettles | console.py:78-79 | `onecmd` on `"<method> <rest>"` runs a handler exactly when the method has one, with the stripped rest; otherwise `default` gets a line `_precmd` does not match |
| Parsing.PrecmdSettles | console.py:78-79 | every command `_precmd` builds is non-empty and never leads back into `_precmd`'s rewrite |
| Parsing.SplitSpace | console.py:169 | `split(' ')` gives at least one piece and no piece holds a space |
| Parsing.SplitJoin | console.py:169 | joining the pieces of `split(' ')` with single spaces gives the text back |
| Parsing.JoinSplit | console.py:169 | pieces without spaces, joined by single spaces, split back into themselves |
| Parsing.UpdateArgs | console.py:250-259 | the pattern fails exactly on an empty line or one that opens with whitespace; the class group is a token, and a missing group is followed only by missing groups |
| Parsing.UpdateArgsHead | console.py:250-259 | `<C> <id> <name> ...` yields those three tokens as the first three groups |
| Parsing.UpdateArgsBare | console.py:250 | an unquoted value is its token; text after further whitespace is ignored |
| Parsing.UpdateArgsQuoted | console.py:250 | a quoted value is the whole quoted text, spaces included |
| Parsing.QuotedValue | console.py:275-281 | a one-line `"<text>"` is a quoted literal, and dropping its quotes gives `text` |
| Parsing.RemoveQuotes | console.py:281 | `replace('"', '')` leaves no double quote and never lengthens the text |
| Console.Locate | console.py:166-177 | `show` and `destroy` check, in order, class name missing, class doesn't exist, instance id missing, no instance found, with each message given exactly when its check is the first to fail; otherwise the key `"<C>.<id>"` of the first two words, present in the table |
| Console.Show | console.py:159-179 | `show` prints the failed check's message, or `str()` of the object found |
| Console.OfType | console.py:216-217 | the filter keeps only objects of the named class, never more entries than the table, and the whole table when all are of that class |
| Console.OfTypeMembers | console.py:216-217 | every entry whose object is of the class is kept, and every entry kept comes from the table |
| Console.OfTypeAppend | console.py:216-217 | the filter keeps table order: filtering two runs of entries is filtering the first, then the second |
| Console.OfTypeOne | console.py:216-217 | a single entry is kept exactly when its object is of the class |
| Console.DescribeAll | console.py:216-221 | one `str()` per object, in table order; it fails exactly when some `str()` raises |
| Console.All | console.py:204-221 | `all` lists every object; `all C` lists the objects of class C, or prints "class doesn't exist" |
| Console.Count | console.py:223-237 | `count` prints "class name missing" for an empty first word, "class doesn't exist" for an unknown one, else the number of keys starting with `"C."` |
| Console.CountPrefix | console.py:236 | the number of matching keys never exceeds the table's size |
| Console.KeyNamesClass | models/engine/file_storage.py:37 | a key `"<T>.<id>"` starts with `"C."` exactly when the object is a C |
| Console.CountIsAll | console.py:236 | when every key agrees with its object's class, `count C` equals the number of objects `all C` lists |
| Console.Create | console.py:150-157 | an empty argument prints "class name missing" and an unknown class "class doesn't exist", with nothing changed; otherwise the new object is stored under `"C.<id>"`, saved once, and its id printed |
| Console.CreateAddsOne | console.py:155-157 | with a new id, the table gains exactly the key `"C.<id>"` at its end and no other key changes |
| Console.CreateThenShow | console.py:150-179 | after `create C`, `show C <id>` finds the new object |
| Console.Destroy | console.py:188-202 | a failed check prints its message with nothing changed; otherwise the key is deleted from the live table and the table saved once |
| Console.KeysAgreeRemove | console.py:201 | deleting an entry keeps every key in agreement with its class |
| Console.DestroyThenShow | console.py:197-202 | after `destroy`, the same `show` prints "no instance found"; the table is one entry shorter and every other key keeps its object |
| Console.UpdatePlan | console.py:246-272 | `update` checks, in order, class name missing (with the pattern failing), class doesn't exist, instance id missing, no instance found, attribute name missing, value missing, with each message given exactly when its check is the first to fail |
| Console.UpdateValue | console.py:274-289 | a registered attribute gets its class's coercion applied to the text (quotes removed from a quoted literal), and that coercion's exception is not caught; otherwise a quoted literal loses every `"` and is never cast, and an unquoted value with a dot becomes a `float`, otherwise an `int`, staying text when the cast raises |
| Console.Update | console.py:239-291 | a failed check, or a coercion that raises, changes nothing; otherwise the attribute is set on the stored object, which is then saved once, unless the object now has an attribute `save`, whose call raises with the assignment in place and nothing saved |
| Console.UpdatedObject | console.py:290-291 | after `update` the object keeps its class, the attribute holds the value assigned (unless it is `updated_at`), `updated_at` is `now`, and nothing else changes |
| Console.UpdateQuotedText | console.py:250-290 | `update C <id> <name> "<text>"` for an unregistered attribute stores `text` as a string |
| Console.UpdateBareValue | console.py:250-289 | `update C <id> <name> <value>` unquoted stores a number when the cast accepts the value, the text otherwise |
| Console.Requote | console.py:91 | every `'` becomes `"`, nothing else changes |
| Console.Convert | console.py:107-108 | a registered attribute takes its coercion, any other value is assigned verbatim |
| Console.AssignItems | console.py:106-109 | an empty mapping changes nothing |
| Console.AssignItemsSplit | console.py:106-109 | the loop over two runs of items is the loop over the first, then, if it completed, over the second |
| Console.AssignItemsCompletes | console.py:106-109 | the loop completes exactly when every item converts |
| Console.AssignItemsGet | console.py:106-109 | after a completed loop over distinct keys, each key holds its converted value and every other attribute is as it was |
| Console.AssignLoop | console.py:106-109 | the loop sets each item in turn on the stored object, stops at the first conversion that raises, and saves nothing |
| Console.UpdateDict | console.py:82-110 | a literal that is not JSON raises before any check; then class name missing, class doesn't exist, no instance found, with nothing changed; otherwise every key is set (coerced where registered) and the object saved once, unless a coercion raises or an attribute `save` hides the method, which leave the assignments made and nothing saved |
| Console.Handle | console.py:112-291 | `show`, `all`, `count`, `EOF`, `quit` and `help` change nothing, only `EOF` and `quit` stop the loop, and no handler saves more than once |
| Console.OneCmd | console.py:27-80 | an empty line, and a line without a handler that `_precmd` does not match, print nothing and change nothing; the loop stops exactly on a line that runs `EOF` or `quit` directly; no line saves more than once |
| Console.Default | console.py:27-80 | `default` never stops the loop, since it drops what the inner `onecmd` returns; a dictionary update whose literal is not JSON raises, and one that fails a check changes nothing; a rewritten command without a handler prints nothing and changes nothing, and one that runs a reading handler changes nothing |

## Left out

- `cmd.Cmd` is not part of this model. `onecmd`, `parseline` and `cmdloop` are written out as `Parsing.Dispatch`, an assumption about them: strip the line; no command for `!` (there is no `do_shell`); `?` means `help`; the command is the leading identifier characters; unknown commands go to `default`.
- `help` output, the prompt, `lastcmd` and the command loop are left out. `help` is the outcome `Help(topic)`. `EOF` and `quit` are `Stop`, and `EOF`'s `print()` is one empty line.
- Parsing.IsWordChar: `\w` is modelled as ASCII letters, digits and `_`. Python's `\w` on `str` also takes non-ASCII letters and digits.
- Timestamps.ParseTimestamp: `strptime` also accepts single-digit fields (`2024-1-5T...`). The model accepts only zero-padded fields with 1 to 6 fraction digits, so its set of accepted texts is smaller than Python's.
- File I/O: `open`, `json.dump`, `json.load` and the path `file.json` are not modelled; the file is the abstract `FileState`. A `save` that raises partway leaves `Corrupt`, for a truncated or partial file. `os.path.isfile` is `Absent`.
- `json.loads`, `int()` and `float()` are oracles, the functions in `Runtime`. A `float` is kept as its text, and no floating-point arithmetic is modelled.
- Console.UpdateDict: `Runtime.json` gives an association list. Python's `json.loads` keeps one entry per repeated key, so on a literal with repeated keys the model converts every occurrence in turn.
- `uuid4()` and `datetime.now()` are parameters: the id and the three clock readings of `Console.Env`. That the clock does not run backwards is a precondition of `Lifecycle.SaveMonotone`, not a property of the model.
- Console.Update: assigning `__class__` or `__dict__` through `setattr` is a special case in Python. It raises `TypeError` or replaces the instance dictionary. The model treats both as ordinary attributes.
- References between objects are not modelled. Objects are values held by key, so `BaseModel.save` is modelled only on an object that the table holds.
- PyValues.Repr: escapes for non-printable characters above U+00FF (`\uXXXX`) are not modelled; only the Latin-1 escapes are.
- The entity modules (models/user.py and the others) hold only class-level defaults. Those defaults never enter an instance `__dict__`, so a closed set of seven class names is enough.
- models/__init__.py is not part of this model; a `Store` object passed to every operation replaces its `storage` singleton.
- tests/test_models/test_console.py is not modelled. It imports a `db_storage` module that is not part of this model.
