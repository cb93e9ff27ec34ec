/**
 The `operations` table and the repository of
 `internal/infrastructure/mariadb/repositories/operation_repository.go`.
 */
module OperationRepository {
  import opened Common
  import opened OperationStatus

  datatype InputFile = InputFile(sizeBytes: nat, sha256: string, fileName: string)

  datatype OperationError = OperationError(code: string, message: string)

  /** What is fixed when the row is created. Times are opaque numbers; nothing here compares them. */
  datatype Header = Header(
    processor: string,
    maxAttempts: int,
    clientReference: string,
    createdAt: int,
    deadline: Option<int>)

  /** The current job, attempt and transfer. */
  datatype Execution = Execution(jobId: Option<string>, attemptId: Option<string>, transferId: Option<string>)

  datatype Operation = Operation(
    id: string,
    header: Header,
    status: Status,
    stage: Stage,
    retryCount: int,
    updatedAt: int,
    inputFile: Option<InputFile>,
    current: Execution,
    cancelRequestedAt: Option<int>,
    error: Option<OperationError>,
    version: int)

  type Table = map<string, Operation>

  /** An error with neither code nor message is stored as NULLs and read back as no error. */
  function StoredError(e: Option<OperationError>): Option<OperationError> {
    if e == Some(OperationError("", "")) then None else e
  }

  /** The columns the UPDATE statement assigns; id and the rest of the header keep the row's values. */
  function Written(row: Operation, op: Operation): Operation {
    op.(id := row.id, header := row.header.(processor := op.header.processor), error := StoredError(op.error))
  }

  /** The row the UPDATE looks for exists: same id, one version below the copy. */
  predicate Matches(t: Table, op: Operation) {
    op.id in t && t[op.id].version == op.version - 1
  }

  /** `Update` reports success also when no row matched. */
  function Update(t: Table, op: Operation): Table {
    if Matches(t, op) then t[op.id := Written(t[op.id], op)] else t
  }

  predicate TransitionMatches(t: Table, id: string, from: Status, version: int) {
    id in t && t[id].status == from && t[id].version == version
  }

  function Transitioned(row: Operation, to: Status, now: int): Operation {
    row.(status := to, stage := StageForStatus(to), updatedAt := now, version := row.version + 1)
  }

  function Transition(t: Table, id: string, from: Status, to: Status, version: int, now: int): Table {
    if TransitionMatches(t, id, from, version) then t[id := Transitioned(t[id], to, now)] else t
  }

  class Repository {
    var rows: Table

    constructor ()
      ensures rows == map[]
    {
      rows := map[];
    }

    /** The primary key rejects a second row with the same id. */
    method CreateRow(op: Operation) returns (ok: bool)
      modifies this
      ensures ok == (op.id !in old(rows))
      ensures rows == if ok then old(rows)[op.id := op] else old(rows)
    {
      ok := op.id !in rows;
      if ok {
        rows := rows[op.id := op];
      }
    }

    method GetByID(id: string) returns (op: Option<Operation>)
      ensures op == if id in rows then Some(rows[id]) else None
    {
      return if id in rows then Some(rows[id]) else None;
    }

    method UpdateRow(op: Operation)
      modifies this
      ensures rows == Update(old(rows), op)
      ensures if op.id in old(rows) && old(rows)[op.id].version == op.version - 1 then
                && rows == old(rows)[op.id := rows[op.id]]
                && rows[op.id] == op.(id := old(rows)[op.id].id, header := old(rows)[op.id].header.(processor := op.header.processor),
                                      error := rows[op.id].error)
                && rows[op.id].error == (if op.error == Some(OperationError("", "")) then None else op.error)
              else rows == old(rows)
    {
      if op.id in rows && rows[op.id].version == op.version - 1 {
        rows := rows[op.id := Written(rows[op.id], op)];
      }
    }

    method TransitionRow(id: string, from: Status, to: Status, version: int, now: int) returns (op: Option<Operation>)
      modifies this
      ensures rows == Transition(old(rows), id, from, to, version, now)
      ensures op.Some? <==> id in old(rows) && old(rows)[id].status == from && old(rows)[id].version == version
      ensures if op.Some? then
                && rows == old(rows)[id := op.value]
                && op.value == old(rows)[id].(status := to, stage := StageForStatus(to), updatedAt := now, version := version + 1)
              else rows == old(rows)
    {
      if !TransitionMatches(rows, id, from, version) {
        return None;
      }
      var row := Transitioned(rows[id], to, now);
      rows := rows[id := row];
      return Some(row);
    }
  }
}
