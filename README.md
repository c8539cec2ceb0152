# HiFi-NN dataset and annotation-output model in Dafny

HiFi-NN annotates protein sequences with Enzyme Commission (EC) numbers. It
looks up the nearest neighbours of each query's embedding in a database of
annotated embeddings. This project models two deterministic parts of the
repository and proves what they promise.

1. **`EmbeddingsAndLabelsDataset`** (`datasets/dataset.py`), the training dataset:
   - It resolves requested protein ids against the stored embedding files
     (`<id>.pt`) and fails when an id has no file.
   - In class mode (`train_on_classes`) it builds an index from each raw EC
     label to the ids that carry it.
   - Each item is an embedding together with the hierarchical expansion of
     its EC labels. `"1.2.3.4"` expands to `["1.", "1.2.", "1.2.3.", "1.2.3.4"]`.
   - `__len__` counts files, or label classes in class mode.
2. **`main` of `annotate.py`**, reduced to its pure decisions:
   - how each input format (`fasta`, `folder`, `sequence`) is embedded;
   - which JSON file the annotations are written to, including the default
     name built with `split('/')` and `str.strip('.fasta')`.

Modules:

| file | module | contents |
|---|---|---|
| `wrappers.dfy` | `Wrappers` | `Option` and `Result` |
| `pylist.dfy` | `PyList` | Python list indexing with negative indices, `set(xs)`, duplicates |
| `pystr.dfy` | `PyStr` | `s[:-n]`, `str.strip(chars)`, `str.split`, `str(k)` |
| `ec_numbers.dfy` | `EcNumbers` | the EC label expansion and the concatenated label list |
| `dataset.dfy` | `Dataset` | `EmbeddingsAndLabelsDataset` |
| `annotate.dfy` | `Annotate` | format dispatch and output-file choice |

Outside influences enter the model as values:
- The directory listing of `filepath` is a sequence `listing`.
- `get_embedding` is a function parameter `load` from a path to an opaque embedding.
- `np.random.choice` and the iteration order of Python sets and dicts are
  nondeterministic choices (`:|`).

Behaviours of the source that the model pins down:
- **Duplicate ids.** A request list with a duplicate id fails construction
  even when every id is stored. The error then reports no missing id.
- **Two different key rules.** Construction keys a file by `f[:-3]`.
  `__getitem__` keys it by `f.strip(".pt")`, which strips the characters
  `.`, `p` and `t` from both ends. They differ for every id that starts or
  ends with one of those characters; for example `rpt.pt` gives `rpt` and `r`.
- **Class mode without an id list** indexes every id of `id_to_ec`, whether
  or not it has a stored file.
- **Default output stem.** `strip('.fasta')` removes characters, not the
  extension, so `data.fasta` becomes `d`. For a folder, the stem is the piece
  before the last `/` with the same characters stripped. So `x/y/` gives `y`
  and `x/y` gives `x`, while `a/b` gives the empty stem because `a` is one of
  the stripped characters. An input with no `/` raises `IndexError`.

`convert_ec_string_to_list` (`utils/dataset_utils.py`) is not part of this
model. Its only documented behaviour is the docstring example at
`datasets/dataset.py:22-24`. `EcNumbers.Expand` defines it by the rule that
example follows: every non-empty prefix ending in `.`, then the whole label.
This is an assumption. `check_input_format` is not part of this model either,
so the format is an input.

## Model

| member | source | states |
|---|---|---|
| `PyList.PyIndex` | datasets/dataset.py:58 | A list subscript succeeds exactly for `-len <= idx < len`. It then reads the position congruent to `idx` modulo `len`, which is `idx` itself when `idx` is non-negative. Anything else is an `IndexError`. |
| `PyList.DistinctCount` | datasets/dataset.py:34-36 | `len(set(xs)) <= len(xs)`, with equality exactly when `xs` has no repeated entry. |
| `PyList.SubsetSize` | datasets/dataset.py:34-36 | The intersection `id_embs` is no larger than `set(ids)`, and is equal to it when it is as large. |
| `PyStr.DropLast` | datasets/dataset.py:33 | `f[:-n]` is a prefix of `f` that is `n` characters shorter, or empty when `f` is shorter than `n`. `DropLastAppended` recovers the id from `<id>.pt`. |
| `PyStr.DropLastAppended` | datasets/dataset.py:33 | `(t + u)[:-len(u)] == t`, so `[:-3]` recovers an id from `<id>.pt`. |
| `PyStr.LStrip` | datasets/dataset.py:64 | The result is a suffix of `s`, everything removed is in `chars`, and the result does not start with a member of `chars`. |
| `PyStr.RStrip` | datasets/dataset.py:64 | The result is a prefix of `s`, everything removed is in `chars`, and the result does not end with a member of `chars`. |
| `PyStr.Strip` | datasets/dataset.py:64 | `s.strip(chars)` is no longer than `s`, and when it is non-empty its first and last characters are not in `chars`. `StripIsWindow` and `StripUnique` characterise it completely. |
| `PyStr.StripIsWindow` | datasets/dataset.py:64 | `s.strip(chars)` is a window `s[i:j]` whose outside lies in `chars` and whose end characters are not in `chars`. |
| `PyStr.StripUnique` | annotate.py:112 | Any such window is the result of `strip`, so the window characterises `str.strip(chars)` completely. |
| `PyStr.StripAddsNothing` | annotate.py:112 | Stripping never introduces a character, so a stripped path piece contains no `/`. |
| `PyStr.Split` | annotate.py:112 | `s.split(sep)` has at least one piece, and no piece contains `sep`. |
| `PyStr.SplitCount` | annotate.py:112 | `s.split(sep)` has one more piece than `s` has separators, so it has a second piece exactly when `s` contains `sep`. |
| `PyStr.JoinSplit` | annotate.py:112 | `sep.join(s.split(sep)) == s`. |
| `PyStr.SplitJoin` | annotate.py:112 | Splitting a join of separator-free pieces returns exactly those pieces. |
| `PyStr.SplitFreePrefix` | annotate.py:112 | A separator-free prefix attaches to the first piece of the split. |
| `PyStr.NatString` | annotate.py:109 | The decimal rendering is non-empty and all digits, with a leading `0` only for zero. |
| `PyStr.ParseNatString` | annotate.py:109 | Reading the digits back gives the number. |
| `PyStr.IntString` | annotate.py:109 | `str(k)` is non-empty, made of digits and `-`, and starts with `-` exactly when `k` is negative. `IntStringRoundTrip` and `IntStringInjective` prove it is read back as `k` and is one-to-one. |
| `PyStr.IntStringRoundTrip` | annotate.py:109 | `int(str(k)) == k` for every integer, negatives included. |
| `PyStr.IntStringInjective` | annotate.py:109 | Different `k` render as different strings. |
| `EcNumbers.Expand` | datasets/dataset.py:22-24 | The empty label expands to nothing. Any other label expands to a non-empty list that ends with the label itself. `ExpandMembership`, `ExpandChain` and `ExpandExample` give the rest. |
| `EcNumbers.ExpandUpToLevels` | datasets/dataset.py:22-24 | The levels of length at most `n` are listed shortest first, each once. Each is a prefix of the label that ends after a `.` or is the whole label, and no such prefix is missing. |
| `EcNumbers.ExpandExample` | datasets/dataset.py:22-24 | The documented example: `"1.2.3.4"` expands to `["1.", "1.2.", "1.2.3.", "1.2.3.4"]`. |
| `EcNumbers.ExpandMembership` | datasets/dataset.py:22-24 | `p` is in the expansion of `ec` if and only if `p` is a level of `ec`. |
| `EcNumbers.ExpandChain` | datasets/dataset.py:22-24 | The expansion is a chain of strictly longer prefixes. Every entry but the last ends in `.`, and the last entry is the label itself. The empty label expands to nothing. |
| `EcNumbers.NoLevelsBelow` | datasets/dataset.py:22-24 | A label without a `.` has no level shorter than itself. |
| `EcNumbers.ExpandUndelimited` | datasets/dataset.py:22-24 | A non-empty label without a `.` expands to itself alone. |
| `EcNumbers.ExpandAll` | datasets/dataset.py:65-67 | When the last raw label is non-empty, the returned list ends with that label itself. `ExpandAllAppend`, `ExpandAllMembership`, `ExpandAllKeepsLabels` and `ExpandAllKeepsDuplicates` give the rest. |
| `EcNumbers.ExpandAllAppend` | datasets/dataset.py:65-67 | Expanding a concatenation of label lists is the concatenation of their expansions, which is what the `extend` loop accumulates. |
| `EcNumbers.ExpandAllMembership` | datasets/dataset.py:65-67 | A string is in the returned label list if and only if it is a level of one of the raw labels. |
| `EcNumbers.ExpandAllKeepsLabels` | datasets/dataset.py:65-67 | Every non-empty raw label appears as itself in the returned list. |
| `EcNumbers.ExpandAllKeepsDuplicates` | datasets/dataset.py:65-67 | Shared ancestors are kept once per label: `["1.2", "1.3"]` gives `["1.", "1.2", "1.", "1.3"]`. |
| `Dataset.StoredIds` | datasets/dataset.py:33 | Every listed file `<id>.pt` makes `id` one of `all_fnames`. |
| `Dataset.FoundIds` | datasets/dataset.py:34 | `id_embs` is a subset of `set(ids)`, so `len(id_embs) <= len(ids)`. `ResolveIds` states when they are equal. |
| `Dataset.ResolveIds` | datasets/dataset.py:33-39 | The id assertion holds if and only if every requested id is a listed file name minus its last 3 characters and no id is requested twice. On success the resolved set is `set(ids)`. On failure the error carries `len(id_embs)` and `set(ids)` minus the stored ids. |
| `Dataset.DuplicateRequestFails` | datasets/dataset.py:34-36 | Requesting an id twice fails even when every id is stored, and the report names no missing id. |
| `Dataset.OneMissingIdReported` | datasets/dataset.py:35-39 | With distinct ids of which exactly one is unstored, the report says `len(ids) - 1` were found and names exactly that id. |
| `Dataset.SuffixedCount` | datasets/dataset.py:40 | Appending `.pt` loses no id: as many names as ids. |
| `Dataset.NameStep` | datasets/dataset.py:40 | Naming one more id keeps the names distinct and in one-to-one correspondence with the ids taken so far. |
| `Dataset.NameFiles` | datasets/dataset.py:40 | The file names are exactly `{id + ".pt"}` over the found ids, each once, in any order. |
| `Dataset.LabelKey` | datasets/dataset.py:64 | The `__getitem__` key `f.strip(".pt")` is no longer than `f`, and when it is non-empty it neither starts nor ends with `.`, `p` or `t`. `LabelKeyOfStoredId` says when it recovers the id. |
| `Dataset.ConstructionKeyOfStoredId` | datasets/dataset.py:33 | The file `<id>.pt` makes `id` a stored id under `[:-3]`. |
| `Dataset.LabelKeyOfStoredId` | datasets/dataset.py:64 | `strip(".pt")` recovers `id` from `<id>.pt` if and only if `id` is empty or neither starts nor ends with `.`, `p` or `t`. |
| `Dataset.KeysDisagreeExample` | datasets/dataset.py:33-64 | For `rpt.pt`, construction finds `rpt` but `__getitem__` looks up `r`. |
| `Dataset.ClassSource` | datasets/dataset.py:44-52 | The ids indexed in class mode are all keys of `id_to_ec` without an id list. With one, they are stored ids that were requested (`id_embs`). |
| `Dataset.BearerCarriesLabel` | datasets/dataset.py:43-52 | In a class index, every id listed under a label is an indexed id that carries that label. |
| `Dataset.LabelledIdIsBearer` | datasets/dataset.py:43-52 | Every indexed id is listed under each of its labels. |
| `Dataset.ClassIndexKeys` | datasets/dataset.py:53-54 | The keys of `ec_to_id` are exactly the distinct raw labels of the indexed ids, and `ec_nums` has one entry per key. |
| `Dataset.ClassIndexExample` | datasets/dataset.py:43-54 | For X and Y labelled `a` and Z labelled `b`, there are two classes. `a` is borne by X and Y in some order and `b` by Z alone, The lemma states this shape only. That a uniform draw over the classes reaches Z as often as X and Y together is a consequence the model does not prove. |
| `Dataset.AppendFiles` | datasets/dataset.py:47 | `ec_to_id[ec].append(id)` files `id` once more under `ec` and changes no other count. |
| `Dataset.KeysTrackedStep` | datasets/dataset.py:47-54 | One append keeps every bearer list non-empty and the key order a duplicate-free list of the keys. A label met for the first time joins the end of the key order. |
| `Dataset.FileAllFiles` | datasets/dataset.py:46-47 | Filing an id under each of its labels in turn adds it to each bearer list once per occurrence of the label and leaves every other count alone, with the keys still tracked. |
| `Dataset.AddBearer` | datasets/dataset.py:46-47 | The inner loop computes exactly `FileAll`, the label-by-label filing of the id. Its result therefore has the counts and key order `FileAllFiles` proves. |
| `Dataset.BuildClassIndex` | datasets/dataset.py:42-54 | For any processing order, the result is a class index of the source ids. Every bearer list is non-empty, each id appears under a label once per occurrence of that label among its raw labels, and `ec_nums` lists every key exactly once. |
| `Dataset.EmbeddingsAndLabelsDataset.constructor` | datasets/dataset.py:18-54 | The success path of `__init__` stores its arguments and establishes `Valid()`. The file list is the whole listing without an id list, or `{id + ".pt"}` otherwise. In class mode the index covers `ClassSource`: all of `id_to_ec` without an id list, the stored requested ids with one. |
| `Dataset.EmbeddingsAndLabelsDataset.Len` | datasets/dataset.py:70-74 | `__len__` is the number of distinct raw labels in class mode. Otherwise it is the listing's length without an id list, and the number of distinct requested ids (equal to `len(ids)`) with one. |
| `Dataset.EmbeddingsAndLabelsDataset.GetItem` | datasets/dataset.py:56-68 | An index outside `-len .. len-1` is an `IndexError`. In class mode the result is the embedding of some bearer of label `ec_nums[idx]` that carries it, paired with the expansion of all that bearer's labels, which contains the selected label. In per-item mode the result is the `idx`-th file's embedding with the expansion of the labels under its stripped name, or a `KeyError` when that name is unlabelled. |
| `Dataset.Create` | datasets/dataset.py:18-54 | `__init__` succeeds exactly when the id assertion holds and, in class mode with an id list, every requested id has labels. An assertion failure is reported exactly as `ResolveIds` reports it. A `KeyError` names a requested id without labels. On success the dataset is valid. |
| `Dataset.ExpandLabels` | datasets/dataset.py:65-68 | The `extend` loop returns the in-order concatenation of each raw label's expansion. |
| `Annotate.Dispatch` | annotate.py:49-85 | Exactly `fasta`, `folder` and `sequence` are dispatched. Any other format raises `ValueError("Program should have crashed by now...")`. |
| `Annotate.DispatchRoundTrip` | annotate.py:49-85 | The three routes are distinct, and the plan determines the format. Each route embeds the configured input: `fasta` and `sequence` through per-residue ESM (with mode `sequence` for the latter), `folder` directly. All use key `representations`, layer 32 and padding 0. An ESM route has mode `sequence` exactly for the `sequence` format. |
| `Annotate.DefaultStem` | annotate.py:107-125 | A stem never contains `/`. `sequence` always gives `sequence`. A format other than `sequence` and `fasta` succeeds exactly when the input contains `/`. A failure is an `IndexError`. |
| `Annotate.DefaultName` | annotate.py:109-124 | A default name starts with `./`, and for a stem without `/` it has no other `/`, so the file lands in the working directory. `DefaultNameDeterminesK` proves that `k` can be read back from it. |
| `Annotate.OutputFile` | annotate.py:107-127 | A configured `output_path` is written verbatim. Without one, the choice fails exactly for an input without `/` in a format other than `sequence` and `fasta`, and that failure is an `IndexError`. |
| `Annotate.Announcement` | annotate.py:110-121 | Nothing is printed for a configured `output_path` or the `sequence` format. A failure is an `IndexError`. A printed message starts with `Saving annotations to: ` followed by something. `PrintedPathIsWrittenPath` proves the rest of it is the written path. |
| `Annotate.Main` | annotate.py:49-127 | An unknown format fails with the `ValueError` before any file name is chosen. For a known format, `main` succeeds exactly when the output file can be chosen, and otherwise fails with `IndexError`. On success it returns the plan of `Dispatch` and the path of `OutputFile`, so every property proved of those two holds for it. A configured `output_path` is used verbatim for every known format. |
| `Annotate.PrintedPathIsWrittenPath` | annotate.py:110-125 | A message is printed exactly when the default name of a `fasta` or other-format input is used. The message is `Saving annotations to: ` followed character for character by the path written. |
| `Annotate.SequenceNameIgnoresInput` | annotate.py:107-109 | The `sequence` format always writes `./sequence_k{k}_annotations.json`, whatever the input. |
| `Annotate.DefaultNameDeterminesK` | annotate.py:109-125 | Two default names with the same stem are equal only for the same `k`. |
| `Annotate.FastaUsesFileName` | annotate.py:110-117 | For a `fasta` input `d1/.../dn/name`, the file is `./{name.strip('.fasta')}_k{k}_annotations.json`, whatever the directories. |
| `Annotate.FolderUsesParentPiece` | annotate.py:118-125 | For any other format and input `d1/.../dn/name`, the stem is `dn`, the piece before the last `/`, stripped of the characters of `.fasta`. |
| `Annotate.FastaExampleStem` | annotate.py:110-117 | `data.fasta` is named after its whole file name, stripped. |
| `Annotate.FastaExampleStrip` | annotate.py:112 | `"data.fasta".strip(".fasta") == "d"`. |
| `Annotate.FastaExampleName` | annotate.py:116 | The default name for stem `d` and `k = 5` is `./d_k5_annotations.json`. |
| `Annotate.FastaStripExample` | annotate.py:110-117 | The FASTA input `data.fasta` with `k = 5` is written to `./d_k5_annotations.json`. |
| `Annotate.FolderExampleEmptyStem` | annotate.py:118-125 | A folder input `a/b` with `k = 5` and no output path is written to `./_k5_annotations.json`, because `"a".strip(".fasta")` is empty. |
| `Annotate.FolderWithoutSlashFails` | annotate.py:118-125 | A folder input without `/` raises `IndexError` when no output path is set. |

## Left out

- Model loading, `HifinnLayerNormResiduePL`, `esm_embed`, `embed_queries` and the torch device (annotate.py:21-42). These are an opaque neural model over floating-point tensors. The dispatch records only the calls that would be made (`Annotate.EmbedPlan`).
- `query_database` and `filter_by_distance` (annotate.py:90-105). They are floating-point vector search implemented in a module that is not part of this model.
- YAML and JSON reading and writing, `check_folder_empty` and `print` (annotate.py:16-19, 43-46). These are file I/O. The printed message and the written path are modelled as strings (`Annotate.Announcement`, `Annotate.OutputFile`).
- `check_input_format` is not part of this model. The input format is a parameter.
- `config['k']` is taken to be an integer. Other YAML values rendered by the f-string are not modelled.
- `os.listdir` is modelled as a sequence argument, not a filesystem read.
- `get_embedding` is modelled as a total function `load`. A missing or unreadable file is not modelled. In class mode without an id list this matters, because bearers need not have a file.
- `Dataset.EmbeddingsAndLabelsDataset.GetItem`: the random bearer is any element of the bearer list. The uniform distribution of `np.random.choice` is not modelled.
- `Dataset.NameFiles` and `Dataset.BuildClassIndex`: the order of `embedding_filenames` and `ec_nums` comes from set and dict iteration order. Properties are stated as sets and counts; any processing order is allowed, including the dict order of `id_to_ec.items()`.
- `Dataset.AddBearer`: `ec_nums` is the key order of `ec_to_id`. It is tracked alongside the map, not read from a dict.
- `Dataset.EmbeddingsAndLabelsDataset.Valid`: the dataset's fields never change after `__init__`, so they are `const`. The `listing` is ghost because only the constructor reads it.
- The torch `Dataset` base class adds nothing the modelled members use.
- `Dataset.ResolveIds` and `Dataset.Create`: Python assertions are assumed to be enabled. Under `python -O` the assertion at datasets/dataset.py:35 is removed. Construction then succeeds with duplicate or missing ids, and the file list names only the found ids.
- `EcNumbers.Expand`: `convert_ec_string_to_list` is not part of this model. It is assumed to follow the prefix rule of the documented example.
