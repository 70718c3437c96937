# Policy-gated gateways: a Dafny model

This project models the core of two small gateways that ask a policy engine
(Open Policy Agent) before allowing a privileged action.

- **Docker gateway** (`docker/main.go`). It keeps a rule file, `docker.rego`, with list, add and
  delete handlers. It also has one action handler, `GET /run/{imageName}`. That handler asks the
  engine's `main/docker/allow` document about the image, and it runs `docker run` only when the
  engine answers with the boolean `true`.
- **Kubernetes admission controller** (`kubernetes/main.go`). It receives an `AdmissionReview`
  and evaluates a prepared query on the request's namespace, operation and pod. It answers with an
  `AdmissionReview` that carries the decision.

Modules:

- `Text` (`text.dfy`) models Go's `strings.Split(s, "\n")` and `strings.Contains`, and the
  `%q` quoting of a rule body. `Join` does not appear in the source. It is a proof helper, the
  inverse of `Split`, which the lemmas about the file's lines reason with. The module also proves
  that unquoting reads back what quoting wrote.
- `PolicyStore` (`policy_store.dfy`) holds the rule file as the `content` field of a `RuleFile`
  object. Each handler is one method of that object. A method runs as a whole, which is what the
  store's reader-writer lock gives each handler. File-system errors are inputs to the methods:
  `None` means the read or write succeeds.
- `DockerGate` (`docker_gate.dfy`) models `queryOPA` and `runDockerContainer`. Two things are
  parameters: the engine, as a function from query document to reply, and `docker run`, as a
  function from command line to outcome. The result records the `docker` command lines that were
  run, so the rule "a deny never starts a container" can be stated.
- `Admission` (`admission.dfy`) models `admitPodCreation`, `toAdmissionResponse` and the status
  mapping of `admitHandler`. Decoding the pod and evaluating the prepared query are parameters.
- `Json`, `Http` and `Wrappers` are small shared types. `Http.HttpError` stands for Go's
  `http.Error`, which writes the message followed by a line break.

Where the code differs from what a caller would expect, the model follows the code:

- The admission protocol has the API server match `response.uid` against `request.uid`. The code
  returns a review that sets only `Response` and leaves its `uid` empty.
  `Admission.AnswerIgnoresUid` and the contracts of `Admission.DecisionReview` and
  `Admission.ToAdmissionResponse` state this.
- A caller would expect "no verdict could be obtained" to be a fault, distinct from a deny. In
  the admission controller, the code turns a missing result, a missing `allow` binding or a
  non-boolean one into a plain deny (`Admission.Decision`). The Docker gateway does report it as
  an error (`DockerGate.InterpretReply`).
- Rule names are not checked for being non-empty or unique.
  - `PolicyStore.PrunedEmptyName` is a fact about the body of `deletePolicyHandler`: given the
    empty name, it empties the file. The route `/policies/{name}` (docker/main.go:33) matches only
    a non-empty path segment, so an empty name cannot reach the handler through it.
  - `addPolicyHandler` takes any name from the JSON body. A name with a line break in it writes
    more than one line, which is why `PolicyStore.AppendedLines` requires a name without one.
- Deleting is by substring, and it leaves a line break after every kept line. A second delete of
  the same name therefore adds one more line break (`PolicyStore.PruneTwice`).

## Model

| member | source | states |
|---|---|---|
| Text.Split | docker/main.go:97 | `strings.Split` on line breaks: at least one piece, and no piece holds a line break |
| Text.JoinSplit | docker/main.go:97 | joining the pieces of a split with line breaks gives back the original string |
| Text.SplitJoin | docker/main.go:97 | splitting the join of line-break-free lines gives back exactly those lines |
| Text.SplitConcat | docker/main.go:72 | the lines of `a + "\n" + b` are the lines of `a` followed by the lines of `b` |
| Text.SplitTerminated | docker/main.go:98-101 | a buffer of lines, each followed by a line break, splits into those lines plus one final empty piece |
| Text.TerminatedConcat | docker/main.go:100 | appending `line + "\n"` piece by piece gives the buffer of the concatenated lines |
| Text.OccursImpliesContains | docker/main.go:99 | an occurrence of `sub` at some position makes `strings.Contains` true |
| Text.ContainsImpliesOccurs | docker/main.go:99 | when `strings.Contains` holds, `sub` occurs at some position |
| Text.ContainsIffOccurs | docker/main.go:99 | `strings.Contains(s, sub)` holds exactly when `sub` occurs at some position of `s` (always, for the empty `sub`) |
| Text.Escape | docker/main.go:72 | the escaped body has no raw line break, and holds a backslash whenever it holds a quote |
| Text.Quote | docker/main.go:72 | the `%q` form of a rule body is one line, opened and closed by a double quote |
| Text.UnescapeEscape | docker/main.go:72 | unescaping reads back exactly what escaping wrote |
| Text.UnquoteQuote | docker/main.go:72 | the quoted rule body can be read back unchanged from the rule file |
| PolicyStore.Appended | docker/main.go:72 | after an append the old file is a prefix of the new one, and what follows it is `"\n" + name + " = " + Quote(rule)` |
| PolicyStore.AppendedLines | docker/main.go:66-74 | for a name without a line break, the appended file's lines are the old lines plus the new rule's line |
| PolicyStore.KeptLines | docker/main.go:97-102 | the kept lines are lines of the file in which the name does not occur, and every such line is kept |
| PolicyStore.KeptLinesConcat | docker/main.go:98-101 | filtering keeps the lines' relative order: filtering a concatenation concatenates the filtered parts |
| PolicyStore.KeptLinesAll | docker/main.go:98-101 | a file whose lines all lack the name keeps every line |
| PolicyStore.PrunedLines | docker/main.go:96-102 | the rewritten file's lines are the kept lines, in order, plus one final empty piece |
| PolicyStore.PrunedExcludesName | docker/main.go:97-102 | after deleting a non-empty name, no line of the file contains the name |
| PolicyStore.PrunedKeepsUnrelated | docker/main.go:98-101 | a line of the old file survives a delete exactly when the name does not occur in it (or it is empty) |
| PolicyStore.PrunedEmptyName | docker/main.go:99 | deleting the empty name empties the file, since every line contains the empty string |
| PolicyStore.PruneTwice | docker/main.go:96-102 | deleting the same non-empty name a second time adds exactly one line break |
| PolicyStore.PruneAppendedPair | docker/main.go:66-102 | deleting a name that prefixes two appended rule names removes both rules and keeps the older lines that lack the name |
| PolicyStore.DeleteAllowRemovesBoth | docker/main.go:97-102 | deleting "allow" removes both "allow-nginx" and "allow-all"; the older, unrelated lines are all that remain |
| PolicyStore.RuleFile.List | docker/main.go:40-53 | the file verbatim with 200, or 500 with the read error when the file cannot be read |
| PolicyStore.RuleFile.Add | docker/main.go:55-81 | invalid JSON gives 400 and a read or write failure gives 500, each leaving the file unchanged; otherwise 201 and the file is the old one with the rule line appended |
| PolicyStore.RuleFile.Delete | docker/main.go:83-111 | a read or write failure gives 500 and leaves the file unchanged; otherwise 200 and the file is the kept lines of the old file, each followed by a line break |
| PolicyStore.Rewrite | docker/main.go:96-102 | the loop over the split lines builds exactly the kept lines, in order, each followed by a line break (its invariant says so for the lines seen so far) |
| PolicyStore.KeptStep | docker/main.go:99-100 | one more line extends the buffer by that line and a line break exactly when the name does not occur in it |
| DockerGate.OpaQuery | docker/main.go:114-120 | the query is exactly `{"input": {"docker_image": {"name": imageName}}}`: each object has the single member named, and `input.docker_image.name` reads back as the image name |
| DockerGate.OpaQueryInjective | docker/main.go:114-120 | different images give different query documents |
| DockerGate.InterpretReply | docker/main.go:127-143 | a verdict `b` exactly when the reply's "result" member is the boolean `b`; a failed POST, an undecodable body (a non-object body with Go's "cannot unmarshal" message), or an absent or non-boolean result each gives its own error |
| DockerGate.QueryOpa | docker/main.go:113-144 | the engine is asked about the fixed-shape query, and there is a verdict exactly when its reply carries a boolean "result", which is the verdict |
| DockerGate.RunDockerContainer | docker/main.go:146-170 | an engine error gives 500 with its text, and `false` gives 403 "Policy violation: Image not allowed"; neither runs anything. `true` runs `docker run --rm -d image` once and gives 200 "Container running with image ..." or 500 with the run error |
| DockerGate.DenyNeverRuns | docker/main.go:150-163 | a container is started if and only if the engine's reply carries the verdict `true` |
| DockerGate.SuccessMeansStarted | docker/main.go:150-169 | the status is 200 if and only if the engine allowed the image and `docker run` started it |
| Admission.AdmissionQuery | kubernetes/main.go:94-100 | the input is `{request: {namespace, operation, object}}`, with exactly those three members, carrying the request's namespace and operation and the decoded pod |
| Admission.Decision | kubernetes/main.go:108-112 | the decision is true exactly when the result set is non-empty and its first result binds "allow" to the boolean true |
| Admission.DecisionReview | kubernetes/main.go:114-139 | `Allowed` equals the decision. True gives Success / "Allowed by policy" with no reason or details. False gives Failure / "Denied by policy" / Forbidden with exactly one cause, of type PolicyViolation and message "Pod creation denied by policy". No uid, no request |
| Admission.ToAdmissionResponse | kubernetes/main.go:142-154 | the error answer is not allowed, has status Failure with the error text as its message, has no reason or details, and has an empty uid |
| Admission.DenialIsDistinguishable | kubernetes/main.go:119-154 | a decision answer is a policy denial exactly when the decision is false; an error answer never is |
| Admission.AdmitPodCreation | kubernetes/main.go:85-140 | a pod decoding failure or an evaluation failure gives the error answer with its message; otherwise the answer built from the decision; never a uid |
| Admission.AdmitOutcomes | kubernetes/main.go:85-140 | the pod is admitted exactly when decoding and evaluation succeed and the decision is true; the answer is a policy denial exactly when they succeed and the decision is false |
| Admission.AnswerIgnoresUid | kubernetes/main.go:137-139 | changing the request's uid does not change the answer: no request identity is echoed |
| Admission.AdmitHandler | kubernetes/main.go:54-83 | an unreadable body or an undecodable review gives 400. A review without a request gets no reply (the code panics). A marshal failure gives 500. A write failure is reported as the 500 the code asks for, which the client does not see (see "## Left out"). Otherwise the reply is the answer of `AdmitPodCreation` |
| Admission.MalformedRequestSkipsEvaluation | kubernetes/main.go:56-66 | a malformed request gets a 400, whatever the engine and the later steps would do |

## Left out

- HTTP plumbing is not modelled: routing, `ListenAndServe`, headers (`Content-Type`) and the encoding of a reply. A reply is a status and a body, or an `AdmissionReview` value.
- `sync.RWMutex` is not modelled. Each locked handler is one method of `RuleFile` that runs as a whole. The concurrency of readers is not modelled.
- File I/O is not modelled. The file is the `content` field, and a read or write error is an input. The file permissions (0644) are left out.
- PolicyStore.RuleFile.Add: a write that fails is taken to leave the file as it was. A real `WriteFile` truncates the file first and can fail part-way, so the file could be left shortened.
- PolicyStore.RuleFile.Delete: the same simplification holds for a write that fails.
- Text.Quote: it escapes quote, backslash, line feed, carriage return and tab. Go's `%q` also escapes other control characters, non-printable characters and invalid UTF-8, and those are not modelled.
- JSON decoding is not modelled. The decoded `Policy` payload, the parsed engine reply and the decoded `AdmissionReview` are inputs. So is the pod decoding into `runtime.RawExtension`, which is the parameter `decodePod`.
- Admission.AdmitPodCreation: a likely consequence of the library, from reading its code and not from a run. `RawExtension.UnmarshalJSON` fills only `Raw`, so `obj.Object` (kubernetes/main.go:98) would be nil and the policy would see `object: null`. The lemmas still hold, because they are proved for every `decodePod`.
- `json.Marshal` of the Docker query (docker/main.go:122-125) is left out. It cannot fail for a map of strings.
- Numbers in JSON are integers here. Go reads them as floating point, but no document here depends on that.
- The policy engine's evaluation is not modelled: the POST to `localhost:8181`, `rego.PrepareForEval` and `Eval`, and the policy language. The engine's answer is a parameter, so which bindings a given query produces is not modelled.
- Admission.Decision: a likely consequence of the library, from reading its code and not from a run. The query `data.kubernetes.admission.allow` (kubernetes/main.go:41) binds no variables, so `Bindings["allow"]` (line 111) would be absent and every decision would be false. The lemmas still hold, because they are proved for every `eval`.
- Admission.AdmitHandler: the 500 replies for a failed write are what the code asks for, not what a client would see. `w.Write` (kubernetes/main.go:79) sends status 200 before it writes the body, so the `http.Error(…, 500)` after it (line 80) is a second status that Go ignores. The model keeps the code's intent: it reports a write failure as a 500.
- Strings are sequences of characters. In Go the rule file, the names and the rule bodies are byte strings (`string(content)` and `strings.Contains`, docker/main.go:97-99). The two agree only on valid UTF-8, and other bytes are not modelled.
- `docker run` is not modelled beyond its command line and its outcome. Its standard output and error go to the server's own streams.
- Program start-up is not modelled: `main`, flag parsing, loading the policy file, logging and `log.Fatal`.
