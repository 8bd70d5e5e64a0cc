# CTC trainer: label inversion and training-history bookkeeping

This project models, in Dafny, the two pieces of custom logic in the CTC
speech-recognition trainer `train_ctc.py`; everything else in that file is
wiring over a deep-learning framework.

- **Label-dictionary inversion** (`get_inv_dict`). The label dictionary maps
  each label symbol (a phoneme or a character) to its class index. The
  inversion maps each index back to its symbol. It then stores the reserved
  CTC blank symbol `<b>` under the key equal to the number of inverted
  entries. The size of the result is the network's number of output classes.
- **Meta checkpoint bookkeeping** (`MetaCheckpoint`). This callback keeps a
  metadata record with these entries:
  - the list of epoch numbers;
  - one history list per logged metric;
  - optionally, the schedule configuration and the invocation arguments.

  At train begin, the callback stores the number of epochs already recorded
  as an offset. At each epoch end, it appends the epoch number plus that
  offset, then appends every logged value to that metric's history, then
  formats the output path from the epoch and the logs. A second training run
  with the same callback object therefore continues the epoch numbering
  (`ResumeContinuity`). The trainer itself builds a new callback on every
  invocation (train_ctc.py:233), also when `--load` reloads a saved model,
  and nothing reads the saved record back. So a reloaded run starts from an
  empty record and numbers its epochs from 0 again (`FreshCallbackNumbering`).

Modules:

- `PyDict` (`py_dict.dfy`) models a Python dict as the sequence of its items in
  iteration order. `FromItems` is the dict that a comprehension or display
  builds from such items: a later item with the same key replaces an earlier
  one.
- `LabelDict` (`label_dict.dfy`) holds the inversion, the blank insertion and
  the class count.
- `MetaCheckpoint` (`meta_checkpoint.dfy`) holds the callback's record, its
  three transitions (`Init`, `OnTrainBegin`, `OnEpochEnd`) and `RunEpochs`.
  `RunEpochs` is the framework's per-epoch calls, folded over a batch of epochs.

Modelling choices:

- The label dictionary and the `logs` dict are item sequences, so their
  iteration order is an input. The order decides which symbol wins when two
  symbols share an index. It also decides which bad key is reported first.
- A record entry is a `List` of scalars or a `Dict`. The schedule
  configuration and the invocation arguments are `Dict` entries, and a dict
  has no `append`. So a logged key that names one of them makes the epoch end
  fail (`NotAList`).
- An epoch end before train begin fails too (`NoEpochOffset`), because the
  offset attribute does not exist yet.
- On failure the model returns the error and no state. In the source the
  exception ends the training run.
- A logged key `epoch` makes the epoch end fail (`EpochLogged`). The path
  format receives `epoch` as a named argument and again among the logs, which
  Python rejects whatever the template is (train_ctc.py:124). The failure
  comes after the record is updated, and the record left behind has the
  logged value appended to the epoch list too, so that list has grown by two
  (`EpochEndEpochKeyLogged`).
- When the class indices are not exactly `0 .. n-1`, the blank can overwrite
  a symbol. `BlankOverwritesSymbol` shows this. `GetInvDictDense` proves that
  for dense maps nothing is overwritten. The label maps the trainer loads are
  assumed to be dense: the functions that build them (`get_phn_map`,
  `get_char_map` in `preprocess_timit`) are not part of this model, so the
  model does not show that they are.

## Model

| member | source | states |
|---|---|---|
| PyDict.FromItems | train_ctc.py:58 | The comprehension's result has exactly the keys of its items |
| PyDict.FromItemsLastWins | train_ctc.py:58 | Every key is bound to the value of the last item, in iteration order, that carries that key |
| PyDict.FromItemsLookup | train_ctc.py:58 | With distinct keys, every item's key maps to that item's value |
| PyDict.FromItemsSize | train_ctc.py:58 | With distinct keys, the dict has one entry per item |
| LabelDict.Invert | train_ctc.py:58 | The inverted dict's keys are exactly the label dictionary's indices |
| LabelDict.GetInvDict | train_ctc.py:57-61 | The blank sits under the key equal to the inverted size; the keys are the indices plus that key; every other inverted entry is kept |
| LabelDict.InvertLookup | train_ctc.py:58 | With distinct indices, every pair (symbol, index) gives inv[index] == symbol |
| LabelDict.InvertSound | train_ctc.py:58 | For any dictionary, each inverted entry pairs an index with a symbol that has it |
| LabelDict.InvertRoundTrip | train_ctc.py:57-58 | An injective label dictionary and its inversion are mutual inverses, in both directions |
| LabelDict.InvertSize | train_ctc.py:58 | With distinct indices, inversion loses no symbol |
| LabelDict.DenseInvertKeys | train_ctc.py:58 | With indices 0 .. n-1, an index is an inverted key exactly when it lies in 0 .. n-1 |
| LabelDict.GetInvDictDense | train_ctc.py:57-61 | With indices 0 .. n-1, the blank is at n, no symbol is overwritten, the keys are 0 .. n, and there are n + 1 classes |
| LabelDict.NbClasses | train_ctc.py:199-202 | The class count is the inverted size plus one exactly when the blank's key is fresh, and the inverted size otherwise |
| LabelDict.BlankOverwritesSymbol | train_ctc.py:57-61 | With distinct symbols and indices, a symbol whose index equals the number of symbols is replaced by the blank, appears nowhere in the result, and the class count stays at the number of symbols |
| MetaCheckpoint.Init | train_ctc.py:105-111 | Empty epoch list; schedule stored iff given; arguments stored iff given and non-empty; no other key; no offset yet |
| MetaCheckpoint.OnTrainBegin | train_ctc.py:113-114 | The offset becomes the number of recorded epochs; the record is unchanged |
| MetaCheckpoint.SetDefaultAppend | train_ctc.py:121 | Fails exactly when the key holds a dictionary, naming that key; otherwise the key's history (empty if absent) grows by the value at its end, the key is added if new, and every other key is unchanged |
| MetaCheckpoint.AppendLogs | train_ctc.py:119-121 | Succeeds iff every logged key is absent or holds a list; keys grow by exactly the logged keys; which keys hold non-lists is unchanged |
| MetaCheckpoint.AppendLogsFrame | train_ctc.py:119-121 | Keys that are not logged keep their entries |
| MetaCheckpoint.AppendLogsFirstError | train_ctc.py:119-121 | A failure names the first logged key, in iteration order, that holds a non-list |
| MetaCheckpoint.AppendLogsHistories | train_ctc.py:119-121 | Each logged value is appended at the end of its key's history; an absent key gets a one-element list |
| MetaCheckpoint.EpochListExtends | train_ctc.py:118-121 | Appending the logs only extends the epoch list |
| MetaCheckpoint.WithEpoch | train_ctc.py:118 | The epoch list gains epoch + offset at its end; every other entry and the key set are unchanged |
| MetaCheckpoint.OnEpochEnd | train_ctc.py:116-124 | Succeeds iff training has begun, every logged key can be appended to and no `epoch` key is logged; fails with NoEpochOffset before train begin; keeps path, offset and which keys hold non-lists |
| MetaCheckpoint.EpochEndError | train_ctc.py:116-124 | After train begin, a failure reports the first logged key that holds a non-list; when there is none, it is the logged `epoch` key |
| MetaCheckpoint.EpochEndAppendOnly | train_ctc.py:118 | A successful epoch end leaves the earlier epoch numbers in place and adds exactly one after them, epoch + offset |
| MetaCheckpoint.EpochEndEpochs | train_ctc.py:118 | Without an `epoch` log key, the epoch list grows by exactly epoch + offset |
| MetaCheckpoint.EpochEndEpochKeyLogged | train_ctc.py:118-124 | A logged `epoch` key makes the epoch end fail at the path format. The record left behind has epoch + offset and then the logged value appended to its epoch list, and every other logged value appended to its own history |
| MetaCheckpoint.EpochEndHistories | train_ctc.py:119-121 | With clean logs, each logged key has its history grown by exactly its value, at the end |
| MetaCheckpoint.EpochEndFrame | train_ctc.py:116-121 | With clean logs (every key appendable, no `epoch` key), the record's keys become the old keys plus the logged keys; keys that are neither logged nor `epoch` are unchanged |
| MetaCheckpoint.RunEpochs | train_ctc.py:116-121 | A successful run keeps the record valid and keeps path and offset |
| MetaCheckpoint.RunEpochsAppendOnly | train_ctc.py:116-121 | Across a run, the old epoch list is a prefix of the new one, which has exactly one more number per epoch |
| MetaCheckpoint.RunEpochsNumbering | train_ctc.py:113-118 | With clean logs, a run appends exactly epoch index + offset for each epoch, in order |
| MetaCheckpoint.ResumeContinuity | train_ctc.py:113-118 | With k epochs recorded, a new train begin on the same callback followed by epochs 0 .. m-1 appends k .. k+m-1 |
| MetaCheckpoint.FreshCallbackNumbering | train_ctc.py:105-118 | A newly built callback, as the trainer makes on every invocation, numbers epochs 0 .. m-1 |

## Left out

- The network and its graph are left out: `ctc_model`, `ctc_lambda_func`, `decode`, `decode_output_shape`, `ler` and the dummy losses. They are framework operations on floating-point tensors.
- `get_from_h5` is left out: it reads HDF5 and builds scipy sparse matrices through foreign libraries.
- `treta_loader` and `get_output` are left out: they deserialise a model and call its prediction, both foreign calls.
- The YAML dump at the end of `on_epoch_end` (train_ctc.py:126-127) is file I/O and is left out. Of the path formatting (train_ctc.py:124), only the clash of a logged `epoch` key with the `epoch` argument is modelled. The path template is not modelled, so a template naming a key that is missing from the logs, which would also raise there, is left out.
- The command-line driver is left out: argument parsing, device and session set-up, directory creation, model checkpoints, the optimiser and `fit`. It is I/O and framework configuration. Only the class count `len(inv_dict)` is modelled (`NbClasses`).
- `schedule.get_config()` is a call into the schedule object. `Init` receives the configuration it returns. Any schedule object is taken to be truthy.
- Invocation arguments are modelled as a string-to-string map. `if training_args:` stores them only when the map is non-empty, as a Python dict's truthiness does; other argument types are not modelled.
- Logged metric values are modelled as `real`. No arithmetic is done on them.
- On an exception, the source leaves the record partly appended. The model returns only the error, because the exception ends the run.
- Iteration order of Python dicts is an input, the order of the item sequence; the model does not fix which order the interpreter uses.
