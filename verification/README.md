# Concurrency protocols and control-flow transformations, verified

The repository implements the same ideas of concurrency in many languages.  This project
models the parts that carry a protocol or a transformation and proves what they promise, in
Dafny 4.11.  `dafny verify dfyconfig.toml` checks everything.

How concurrency is modelled.  `Runs` defines a transition system; its actions are the atomic
steps of the threads, and a schedule is any sequence of enabled actions, so a statement about
every legal schedule is a statement about every interleaving.  A step is what the program
protects by one lock, or one access where it protects nothing.  Where the source is a class or
a loop that updates variables, there is a class with methods in the same form beside the
transition system, each method proved against the functions that the system is made of; what
other threads do in the meantime is then a parameter.

- `Stm`, `StmProgress`, `StmExact`, `StmReread`, `StmBank`, `StmObjects`: the optimistic transactions of
  python/stm/stm_model.py.  A transaction body is any strategy that maps the values returned so
  far to the next operation.  Readers do not take the commit lock and can see half a commit; the
  main theorem is that such a transaction never commits and that committed runs are serial.
- `BankStm`, `BankStmBooks`, `BankStmRefusals`, `BankStmObjects`: java/stm/BankSTM.java, whose
  snapshot and commit use different locks, step by step: the protocol, what its commits do to the
  balances, what its refusals mean, and the code in place.
- `CppMonitor`, `BoundedBuffer`: producers and consumers under a monitor, with notification
  after unlocking (C++) and inside the lock (Python).
- `Locking`, `LockedBank`: locks in a fixed order, the program that deadlocks, and bank accounts
  with a lock each.
- `Sockets`, `EchoRounds`, `Epoll`, `NioReactor`: the echo servers, against a kernel that acts on
  its own between any two system calls (`Epoll`), or between any two callbacks (`NioReactor`).
- `ErlangChannel`, `PyChannel`, `Pipeline`: channels and a process network.
- `Cps`, `Hanoi`, `Keypad`, `T9`, `T9Bend`, `Stackful`: transformed programs and the direct ones
  they stand for.
- `Logs`, `Money`, `Options`, `Runs`, `Seqs`, `Totals`: histories of queues, sums, and runs.

Where the code and its documentation disagree, the model follows the code:

- A transaction that reads a TVar twice can commit although its reads disagree, because the
  second read replaces the entry of the read set (python/stm/stm_model.py:65).  A commit is
  serial exactly when its re-reads agreed.
- The Java transfer swaps the two balances when the payer has the larger id
  (java/stm/BankSTM.java:103-106).  It moves exactly the amount if and only if the payer comes
  first or the balances are equal.  Of amounts that are not negative it overdraws nobody if and
  only if the payer does not come second or the payee could have paid as well, and every transfer for
  which that is not so has a run that overdraws.  The total is kept in both branches.
- A Java transfer from an account to itself adds its amount (java/stm/BankSTM.java:97-108), so
  the total is kept if and only if payer and payee differ or the amount is zero.
- A Python transfer from an account to itself waits for a lock that it holds
  (python/shared_memory_lock/bank_account.py:52-53): all runs complete if and only if no
  operation is one.
- The echo servers close a client when they read its end of file and drop what they have not
  sent yet (python/io_multiplexing/epoll_server.py:145-153, 202-204;
  python/io_multiplexing/nio_reactor_server.py:198-200), so a client that sends and then shuts
  down its writing side can lose its echo, or the end of it.  EchoRounds.EndIsComplete has the exact
  condition for both modes of the epoll server.
- A Python channel with maxsize 0 is documented as unbuffered; it is unbounded
  (python/csp/channel_demo.py:35-36, 48).
- The traces that python/stackless_coroutine/stackless_vs_stackful.py:118 asserts to be equal
  differ for every n; one is the other with the leaf event expanded.
- The recursive Bend form returns no combination for no digits, the other two return the empty
  string (bend-lang/t9_combinations.bend:45-49, 91-94, 109-112).

## Model

| member | source | states |
|---|---|---|
| Stm.Serializable | python/stm/stm_model.py:130-163 | In every interleaving of threads whose bodies, whatever the TVars hold at each read, do not commit after reading two values from one TVar: whenever the commit lock is free, memory is what the committed bodies produce when run alone, one at a time, in commit order; each did exactly what it does in that serial run; each thread commits its bodies in program order |
| Stm.ReadsOnceCommitsConsistent | python/stm/stm_model.py:58-67 | Bodies that read no unwritten TVar twice are of that kind |
| StmExact.ConsistencyIsExact | python/stm/stm_model.py:58-163 | That condition is exact, body by body: a body never returns with two values of one TVar if and only if every run of any number of threads with that body, and others of that kind, is serial |
| StmExact.InconsistentBodyBreaks | python/stm/stm_model.py:64-67 | The converse of Serializable: for every body and every view with disagreeing reads with which it can return, there is a run against one thread of single writes whose last commit, and no other, is not the serial one |
| StmExact.CommitsWith | python/stm/stm_model.py:130-163 | Whatever view a body can return with, there is a run in which it commits with that view |
| Stm.CommitSerialIffRereadsAgree | python/stm/stm_model.py:58-67 | For bodies of any shape: a commit equals the run of its body alone on the memory of its predecessors if and only if all its reads of the same TVar returned the same value (a re-read overwrites the entry of the read set) |
| Stm.SerialIffConsistent | python/stm/stm_model.py:58-73 | The same for one attempt whose read set is current: it is a run on one memory if and only if its re-reads agreed |
| Stm.ReadsOwnWrites | python/stm/stm_model.py:58-73 | Alone on any memory, a body that reads a TVar gets the last value that it has itself written to it, and only if it has written none what the memory holds; only the latter counts as a read of the TVar |
| Stm.TornReadNeverCommits | python/stm/stm_model.py:94-109 | A transaction whose reads do not fit one memory between commits, such as one that saw half of a commit, never reaches the writing loop |
| Stm.CommitNeverFails | python/stm/stm_model.py:94-106 | Neither RuntimeError of commit is reachable |
| Stm.RestartsAreCausedByOthers | python/stm/stm_model.py:136-163 | A thread's conflict restarts are at most the version increments made by other threads, both counted along the run |
| Stm.ConflictHasCulprit | python/stm/stm_model.py:83-92 | Each conflict restart has a culprit in the run: the TVar whose check fails has a higher version than the one read, and some step of another thread raised that version while the transaction had that TVar in its read set with the value it still has there, so after the read |
| Stm.StaleWasRaised | python/stm/stm_model.py:83-109 | The same for every TVar of a read set that is out of date before the transaction publishes, whether or not it has been checked yet |
| Stm.CountsAlongRun | python/stm/stm_model.py:83-109 | The two counters of the model are exactly the number of conflict restarts and of foreign version increments in the run |
| Stm.InvAlongRun | python/stm/stm_model.py:58-163 | The invariant of the protocol (read sets are older than memory, versions never fall, the lock holder's validated entries stay valid while it writes) holds after every run |
| Stm.StepKeepsInv | python/stm/stm_model.py:58-163 | Each read, version check, single-TVar write, lock operation and TVar creation keeps that invariant |
| StmReread.RereadBreaksSerializability | python/stm/stm_model.py:64-67 | A concrete run with a body that reads one TVar twice ends with Y = 5 while the same commits run one at a time leave Y = 0 |
| StmProgress.ThreadCanMove | python/stm/stm_model.py:136-163 | In every state of the invariant, a thread with a body left, whose next TVar is registered, can take a step if and only if it is not waiting for the commit lock while another thread has it: bodies run, and validate, beside a commit |
| StmProgress.SomeoneCanMove | python/stm/stm_model.py:136-163 | In every reachable state in which a thread has a body left, and the TVar that it reads next is registered, some thread can take a step; if the commit lock is held, its holder can |
| StmProgress.LockIsReleased | python/stm/stm_model.py:158-163 | After every run, the holder of the commit lock can free it by its own steps alone, whether it then commits or restarts, and a bound on their number is given |
| StmProgress.CommitsAlone | python/stm/stm_model.py:130-163 | From any moment at which the commit lock is free, a thread about to start a body that returns when run alone on the memory, and reads registered TVars only, can commit it while the others stand still: with the view of that solo run, the memory updated by exactly its writes, and the lock free again |
| StmProgress.LockTakersHaveValidated | python/stm/stm_model.py:155-158 | In every run, each TVar that an attempt has read when it asks for the commit lock, holds it or commits was found at the version read by an earlier step of this attempt's first validate() |
| StmProgress.TVarCanBeCreated | python/stm/stm_model.py:197-202 | Whenever the commit lock is free a new TVar can be registered: at version 0, nothing else changed |
| StmBank.TransferReadsOnce | python/stm/stm_model.py:209-225 | The transfer body reads each of its three distinct TVars at most once before writing it |
| StmBank.AloneProgresses | python/stm/stm_model.py:209-225 | What a transfer has read and written, how many operations it has done, and whether it has asked for a retry, after any number of operations when run alone: a retry exactly if the payer is short |
| StmBank.TransferReturnsIff | python/stm/stm_model.py:209-225 | Run alone on a memory with its three distinct TVars, a transfer comes to its end without a retry if and only if the payer has the amount, and its writes are then exactly: payer less the amount, payee plus the amount, ledger plus one |
| StmBank.CommittedTransferMoves | python/stm/stm_model.py:207-225 | A transfer committed serially was covered, and the memory after it is the memory before with the amount moved and the ledger one up |
| StmBank.CoveredTransferCommits | python/stm/stm_model.py:207-225 | From any state with the commit lock free, whatever other threads are doing, a thread about to run a covered transfer has a legal run that ends with one more transfer done, the lock free, payer less the amount, payee plus the amount, ledger plus one, all else unchanged |
| StmBank.OnlyTransferRuns | python/stm/stm_model.py:130-225 | Every run of one thread with one transfer: the transfer is done at the end only if the payer had the amount; while the lock is free the three TVars are as they were, or, when it is done, changed by exactly the transfer |
| StmBank.TransferFinishesIff | python/stm/stm_model.py:130-225 | From any initial memory with its TVars, such a thread has a run to the end of its transfer if and only if the payer has the amount |
| StmBank.TransferKeepsBank | python/stm/stm_model.py:207-225 | One committed transfer keeps the total, overdraws nothing and adds one to the ledger |
| StmBank.BankInvariant | python/stm/stm_model.py:207-225 | In every run, whenever the commit lock is free: the total is the initial one, no account is overdrawn, and the ledger has counted exactly the committed transfers |
| StmObjects.TVar.constructor | python/stm/stm_model.py:28-31 | A new TVar holds its value at version 0 |
| StmObjects.Transaction.ReadTVar | python/stm/stm_model.py:58-67 | The own write if there is one; otherwise the current value, which replaces the entry of the read set |
| StmObjects.Transaction.WriteTVar | python/stm/stm_model.py:69-73 | The write set maps the TVar to the value |
| StmObjects.Transaction.Validate | python/stm/stm_model.py:83-92 | Under the commit lock: true if and only if every TVar read is registered and has the version read.  Outside it, with other threads storing before each check: if it refuses, a validation afterwards would refuse too |
| StmObjects.Transaction.CheckTVar | python/stm/stm_model.py:86-91 | One version check, after whatever other threads have stored: refused exactly if the TVar is not registered or not at the version read |
| StmObjects.Transaction.CommitTVar | python/stm/stm_model.py:100-109 | One turn of the writing loop: the value is stored and the version goes up by one, unless the TVar is not registered; refused exactly if the TVar was read and has changed since |
| StmObjects.Transaction.Commit | python/stm/stm_model.py:94-109 | Succeeds if and only if validation does, then publishes exactly the write set, each version up by one, and otherwise changes nothing; the refusal inside the loop cannot happen |
| StmObjects.Execute | python/stm/stm_model.py:144-145 | A body run against the registry, with other threads storing any values into any TVars before each of its operations, ends with the view, read set and memory of the specification |
| StmObjects.RanOk | python/stm/stm_model.py:58-73 | In every such run: the view is the body's run alone on any memory that agrees with what it read; a TVar of the read set has been stored into since its last read if and only if its version is higher than the one read; otherwise it still has the value read |
| StmObjects.RanStoresNothing | python/stm/stm_model.py:58-73 | A body stores nothing: the memory after its run is what the other threads have stored |
| StmObjects.Attempt | python/stm/stm_model.py:136-163 | One turn of the retry loop with other threads storing before every operation of the body, before every check of the first validation, and until the lock is taken: it commits if and only if the body wants to and nothing it read was stored into after its last read; then exactly its write set is published, otherwise nothing |
| StmObjects.Atomically | python/stm/stm_model.py:130-163 | For any stores of other threads during each attempt: the first attempt that succeeds is the last one made; those that fail leave nothing; the one that commits publishes, on the memory as of its commit, what its body does alone on that memory, exactly if its repeated reads agreed, and so always for a body that never commits otherwise |
| StmObjects.ValidationTellsSuccess | python/stm/stm_model.py:83-92 | Comparing versions tells exactly whether something read has been stored into after its last read, whatever other threads did at every point of the attempt |
| StmObjects.SameViewAfter | python/stm/stm_model.py:155-163 | The view of a successful attempt is the body's view on the memory it commits to if and only if its repeated reads agreed |
| CppMonitor.NoWakeupIsLost | cpp/shared_memory_lock/producer_consumer.cpp:26-61 | In every reachable state, a waiter whose predicate is true implies that some thread has unlocked and not yet notified |
| CppMonitor.SleepersHaveReason | cpp/shared_memory_lock/producer_consumer.cpp:30-47 | In every reachable state with no notification outstanding, a waiting producer faces a queue that holds exactly its maximum, and a waiting consumer an empty queue with done not set |
| CppMonitor.FinishedRun | cpp/shared_memory_lock/producer_consumer.cpp:26-82 | With at least one consumer, a run that can go no further is a finished program: all threads ended, queue empty, items out in the order in, each producer's in its order, and as multisets exactly the items of the producers |
| CppMonitor.BlockedOnlyAtTheEnd | cpp/shared_memory_lock/producer_consumer.cpp:63-82 | In any state of the invariant in which nobody can move, main has returned |
| CppMonitor.RunsTerminate | cpp/shared_memory_lock/producer_consumer.cpp:26-82 | Without spurious wake-ups every run is bounded by a measure of the initial state; each spurious wake-up adds a bounded amount |
| CppMonitor.StepMeasure | cpp/shared_memory_lock/producer_consumer.cpp:26-82 | The measure falls with every step except a spurious wake-up |
| CppMonitor.InvAlongRun | cpp/shared_memory_lock/producer_consumer.cpp:26-82 | The invariant (mutex, waiters, queue history, done flag) after every run |
| CppMonitor.StepKeepsInv | cpp/shared_memory_lock/producer_consumer.cpp:26-82 | Each step of a thread, of main, and each spurious wake-up keeps the invariant |
| CppMonitor.Program.Lock | cpp/shared_memory_lock/producer_consumer.cpp:30-30 | Taking the mutex, as the step of the model |
| CppMonitor.Program.Test | cpp/shared_memory_lock/producer_consumer.cpp:31-31 | The predicate of cv.wait: go on, or release the mutex and join the wait set |
| CppMonitor.Program.Produce | cpp/shared_memory_lock/producer_consumer.cpp:33-38 | Push and unlock, as one step of the model |
| CppMonitor.Program.Consume | cpp/shared_memory_lock/producer_consumer.cpp:48-55 | Leave if empty and done, otherwise pop and unlock, as one step of the model |
| CppMonitor.Program.Notify | cpp/shared_memory_lock/producer_consumer.cpp:39-39 | The late notify_all wakes every waiter |
| CppMonitor.Program.MainTurn | cpp/shared_memory_lock/producer_consumer.cpp:71-81 | Joining, setting done under the mutex, notifying, joining the consumers |
| CppMonitor.Program.Run | cpp/shared_memory_lock/producer_consumer.cpp:26-82 | The program in place, under any scheduler and any spurious wake-ups: with at least one consumer it runs to its end by a legal run of the model; main has returned, the queue is empty, items came out in the order they went in, and they are exactly those of the producers, each producer's in its order |
| BoundedBuffer.SleepersHaveReason | python/shared_memory_lock/thread_producer_consumer.py:24-41 | In every reachable state sleeping producers face a full buffer, sleeping consumers an empty one, and items taken followed by the buffer are the items put, in order |
| BoundedBuffer.CompletesIff | python/shared_memory_lock/thread_producer_consumer.py:44-58 | A run that can go no further has completed all operations if and only if puts are at least gets and exceed them by at most maxsize |
| BoundedBuffer.BalancedRunsComplete | python/shared_memory_lock/thread_producer_consumer.py:44-58 | With as many puts as gets, every maximal run completes, the buffer ends empty, order is kept, every consumer got its count |
| BoundedBuffer.StepProgress | python/shared_memory_lock/thread_producer_consumer.py:24-41 | Every step lowers (remaining operations, awake threads) lexicographically |
| BoundedBuffer.RunsTerminate | python/shared_memory_lock/thread_producer_consumer.py:24-58 | Hence the length of every run is bounded |
| BoundedBuffer.Buffer.Put | python/shared_memory_lock/thread_producer_consumer.py:24-31 | Sleeps while the buffer is full and no longer, then appends the item; the bound is respected |
| BoundedBuffer.Buffer.Get | python/shared_memory_lock/thread_producer_consumer.py:33-41 | Sleeps while the buffer is empty and no longer, then takes the first item |
| Locking.SomeoneCanMove | python/shared_memory_lock/bank_account.py:49-53 | If every thread takes its locks in ascending order and not all have finished, the holder of the greatest lock, or anyone if none is held, can move |
| Locking.OrderedThreadsFinish | cpp/shared_memory_lock/deadlock.cpp:58-72 | Any number of threads that lock in ascending order: a run that can go no further has finished |
| Locking.FixedOrderFinishes | cpp/shared_memory_lock/deadlock.cpp:58-72 | The corrected order of the comment never hangs, for any number of threads |
| Locking.OppositeOrderHangs | cpp/shared_memory_lock/deadlock.cpp:24-46 | The program as written has a run to a state where both threads wait for ever |
| Locking.OnlyOneDeadlock | cpp/shared_memory_lock/deadlock.cpp:24-46 | Every run of it that can go no further has finished or is in that one state |
| Locking.RunLength | cpp/shared_memory_lock/deadlock.cpp:24-46 | A run is exactly as long as the commands it has executed, so no run goes on for ever |
| LockedBank.Linearizable | python/shared_memory_lock/bank_account.py:22-62 | Any number of threads and accounts: the balance of each unlocked account is what the logged operations leave one at a time; every operation ended as in that serial execution, failed ones without effect; each thread's operations are logged in its order |
| LockedBank.KeepsPromise | python/shared_memory_lock/bank_account.py:22-62 | Each serial operation in numbers: ValueError, and no change, if and only if the amount is not positive or, for withdraw and transfer, would leave the payer with less than nothing; otherwise each account named changes by exactly the signed amount, and no other; get_balance gives the number held |
| LockedBank.LoggedAsPromised | python/shared_memory_lock/bank_account.py:22-62 | The same for every operation of every run, on the balances that the operations logged before it leave |
| LockedBank.NoDeadlock | python/shared_memory_lock/bank_account.py:22-62 | Without transfers from an account to itself: every run that can go no further has completed all operations, all locks are free, and the balances are the serial ones |
| LockedBank.CompletesIff | python/shared_memory_lock/bank_account.py:43-62 | All runs that can go no further have completed all operations if and only if no operation is a transfer from an account to itself; if one is, no run completes |
| LockedBank.SelfTransferNeverCompletes | python/shared_memory_lock/bank_account.py:49-53 | From any start, no run gets past a transfer from an account to itself |
| LockedBank.StuckIsSettled | python/shared_memory_lock/bank_account.py:49-62 | When nobody can move, whoever holds a lock has changed nothing: the balances are the serial ones |
| LockedBank.RunLength | python/shared_memory_lock/bank_account.py:22-62 | Every run is exactly as long as the statements it executed |
| LockedBank.MoneyIsConserved | python/shared_memory_lock/bank_account.py:22-62 | When nobody can move, finished or hung, no account is overdrawn and the total has changed by exactly the successful deposits less withdrawals |
| LockedBank.SelfTransferHangs | python/shared_memory_lock/bank_account.py:49-53 | In any reachable state, a transfer from an account to itself that has its lock waits for that lock whatever the other threads do, for ever |
| LockedBank.HeldStep | python/shared_memory_lock/bank_account.py:49-53 | Locks are taken in ascending id order and released when held |
| LockedBank.KnowsStep | python/shared_memory_lock/bank_account.py:22-62 | What a thread has tested and read under its locks stays the serial state until its operation takes effect, and its outcome is the serial outcome |
| LockedBank.BankAccount.Deposit | python/shared_memory_lock/bank_account.py:22-27 | The serial deposit; unless the account is locked, when it waits: ValueError and no change for an amount below 1, otherwise the balance is up by the amount |
| LockedBank.BankAccount.Withdraw | python/shared_memory_lock/bank_account.py:29-36 | The serial withdrawal; unless the account is locked, when it waits: ValueError and no change exactly if the amount is below 1 or more than the balance, otherwise the balance is down by the amount, to 0 at the least |
| LockedBank.BankAccount.GetBalance | python/shared_memory_lock/bank_account.py:38-41 | The number held; waits exactly if the account is locked |
| LockedBank.BankAccount.TransferTo | python/shared_memory_lock/bank_account.py:43-62 | The serial transfer between any two accounts: ValueError and no change exactly if the amount is below 1 or more than the payer has, otherwise the amount leaves one balance and enters the other; waits exactly if one of the two is locked, or they are the same account, and then keeps the first lock |
| BankStm.SnapshotIsCurrent | java/stm/BankSTM.java:73-98 | After the version check under both locks the snapshot balances are the current ones and the payer can pay, although snapshot and commit use different locks |
| BankStm.SuccessIffCommitted | java/stm/BankSTM.java:66-126 | In every run and for every thread: each transfer it was given has exactly one result or is still to be done, and the transfers it has committed are, in order, exactly those that returned Success, plus at most the one that is returning; so Insufficient and MaxRetries have committed nothing |
| BankStmBooks.CommitExactIff | java/stm/BankSTM.java:97-108 | A commit moves the amount from payer to payee if and only if the payer comes first in lock order, or the balances are equal, or an account pays itself nothing |
| BankStmBooks.CommitOverdrawsIff | java/stm/BankSTM.java:97-108 | A covered commit on balances that are not negative leaves none negative if and only if it is safe; for amounts that are not negative: the payer does not come second in lock order, or the payee could have paid the amount too |
| BankStmBooks.CommitTotalIff | java/stm/BankSTM.java:97-108 | A commit keeps the total if and only if payer and payee differ or the amount is zero; from an account to itself it adds the amount |
| BankStmBooks.OverdraftIff | java/stm/BankSTM.java:64-126 | In every run, no commit has overdrawn an account if and only if each committed transfer was safe on the balances it found |
| BankStmBooks.SoloCommits | java/stm/BankSTM.java:64-126 | For any balances and any transfer that the payer can pay there is a run of the program, step by step, that ends with Success, all locks free and the balances of one commit |
| BankStmBooks.UnsafeTransferOverdraws | java/stm/BankSTM.java:103-106 | So every transfer that is not safe has a run that returns Success and leaves an account overdrawn |
| BankStmBooks.CrossedCommitOverdraws | java/stm/BankSTM.java:103-106 | For example, a run in which the account with the larger id pays 50 out of 100 to an empty one, returns Success and is left with -50 |
| BankStmBooks.SelfTransferCreates | java/stm/BankSTM.java:97-108 | Every transfer from an account to itself that it can pay has a run that returns Success and raises the total by the amount |
| BankStmBooks.TotalIsConserved | java/stm/BankSTM.java:64-126 | In every run an account that nobody has locked has the balance that the committed transfers leave one at a time, each covered when committed; whenever all locks are free the total is the initial one plus what transfers from an account to itself have added; if no amount is negative, it is conserved if and only if no committed transfer from an account to itself has an amount other than zero |
| BankStmBooks.AscendingTransfersAreExact | java/stm/BankSTM.java:66-112 | If all transfers go from a smaller to a larger id: no account is ever overdrawn, every committed transfer debits and credits exactly its amount, and whenever all locks are free each balance is the initial one plus the net of the transfers that returned Success, thread by thread |
| BankStm.NoDeadlock | java/stm/BankSTM.java:86-119 | Every maximal run completes all transfers and frees all locks; each transfer has one result, and each thread has committed exactly its successful ones, in order |
| BankStmRefusals.InsufficientWasShort | java/stm/BankSTM.java:73-84 | A transfer that returns Insufficient: at some moment in the course of it the payer had less than the amount |
| BankStmRefusals.EachAttemptHadCulprit | java/stm/BankSTM.java:71-125 | A transfer that has returned MaxRetries failed in each of its 100 attempts, and for each there is an earlier step of another thread that raised the version of one of the two accounts that the snapshot of that attempt held, from then until the attempt failed |
| BankStmRefusals.GivesUpAfter100 | java/stm/BankSTM.java:71-125 | In every run: a transfer has returned MaxRetries if and only if exactly 100 of its attempts have failed, and one that has returned anything else has seen fewer fail |
| BankStmRefusals.GivingUpNeedsContention | java/stm/BankSTM.java:71-125 | Over a whole run: 100 times the number of a thread's transfers that gave up is at most its failed attempts, and those are at most the version increments made by other threads |
| BankStm.RunsTerminate | java/stm/BankSTM.java:71-125 | The bounded retry loop bounds the length of every run |
| BankStm.InvAlongRun | java/stm/BankSTM.java:66-119 | The protocol invariant after every run |
| BankStmObjects.RunTransfer | java/stm/BankSTM.java:64-126 | Between any two accounts, or from one to itself, other threads committing between any two of the reads of each attempt and until the locks are taken: commits in the first attempt in which neither account changes after its version was read, gives up in the first whose snapshot of the payer is short or after 100 attempts, with the exact balances in each case, crossed if the payer's id is the larger one and raised if it is the same account |
| BankStmObjects.Attempt | java/stm/BankSTM.java:72-123 | One turn of the retry loop: which of the three it is, and the balances it leaves |
| BankStmObjects.CommittedIsCommit | java/stm/BankSTM.java:97-108 | What that commit makes of the two balances is the commit of the interleaved model |
| Epoll.EpollEchoServer.constructor | python/io_multiplexing/epoll_server.py:81-98 | The listener is registered; no clients |
| Epoll.EpollEchoServer.HandleIoEt | python/io_multiplexing/epoll_server.py:170-216 | Handles a reported event in edge mode so that nothing is forgotten: any client with unread bytes, end of file or unsent bytes that the kernel would take is on the ready list again; no exception; unless the client is closed, everything that had arrived has been read, and bytes have been sent if there were some and there was room; with nothing more from outside, the client becomes exactly what EchoRounds.Handle says and nothing else changes |
| Epoll.EpollEchoServer.ReadUntilBlocked | python/io_multiplexing/epoll_server.py:188-207 | The reading loop ends with EAGAIN or with the client closed; everything that had arrived at the start has been read, and whatever arrives after EAGAIN is flagged |
| Epoll.EpollEchoServer.HandleIoLt | python/io_multiplexing/epoll_server.py:134-164 | Level mode: the echo stays exact, the handler never meets EAGAIN, and the client is closed or has moved on by at least a byte, in reading and in writing; with nothing more from outside, the client becomes exactly what EchoRounds.Handle says and nothing else changes |
| Epoll.EpollEchoServer.FlushSend | python/io_multiplexing/epoll_server.py:222-253 | Sends what fits, keeps the rest, and asks for EPOLLOUT exactly while bytes remain |
| Epoll.EpollEchoServer.Rearm | python/io_multiplexing/epoll_server.py:255-264 | epoll.modify looks at readiness afresh, so nothing about the client is forgotten |
| Epoll.EpollEchoServer.AcceptOne | python/io_multiplexing/epoll_server.py:273-291 | One pending connection gets an unused descriptor and an empty buffer, and is registered after time has passed; what has arrived on it by then makes it ready, and nobody else is disturbed |
| Epoll.EpollEchoServer.AcceptClient | python/io_multiplexing/epoll_server.py:266-295 | Accepts until EAGAIN: no pending connection is left |
| Epoll.EpollEchoServer.Poll | python/io_multiplexing/epoll_server.py:114-116 | Each descriptor asked about that has something to report is reported, once, with its current status; in edge mode it leaves the ready list; no client is forgotten |
| Epoll.EpollEchoServer.CloseClient | python/io_multiplexing/epoll_server.py:301-313 | Out of both tables and out of epoll; closed only when broken or at end of file with everything read; its history is kept |
| Epoll.EpollEchoServer.Dispatch | python/io_multiplexing/epoll_server.py:116-123 | Each event goes to its handler and is used up |
| Epoll.EpollEchoServer.ServeForever | python/io_multiplexing/epoll_server.py:106-123 | For every schedule of polls and of the outside world: between polls all tables agree, every client is in order, no exception ended the loop, and what was sent and received of any connection has only grown |
| Epoll.EpollEchoServer.DispatchAll | python/io_multiplexing/epoll_server.py:116-123 | One round of events keeps the server in order; with nothing more from outside, the work left falls by at least the number of events, and every connection stays on its way to the end that it has to come to |
| Epoll.EpollEchoServer.Settle | python/io_multiplexing/epoll_server.py:106-123 | In both modes, once the outside world is silent: after at most as many polls as there were bytes to read (twice), bytes to send and connections, in whatever order events are reported, poll has nothing to report and every connection is accepted; each client that was neither at end of file nor broken is still open, with every byte read, and echoed except for a full send queue; each other one has been closed with the history that EchoRounds.Ends gives |
| EchoRounds.EndIsComplete | python/io_multiplexing/epoll_server.py:134-253 | What becomes of a client at end of file or broken when nothing else happens.  In edge mode, and if it is broken, nothing more is sent, so its echo is complete if and only if it had nothing unread and an empty buffer.  In level mode it is complete if and only if buffer and unread bytes fit into the send queue, and the number of reads of 4096 bytes that are left is even if the buffer is empty and odd if it is not |
| EchoRounds.ClosedAfterReading | python/io_multiplexing/epoll_server.py:145-164 | The level case, by the rounds in which the client is read and, every second time, flushed |
| EchoRounds.TurnIsProgress | python/io_multiplexing/epoll_server.py:134-253 | Handling a report about a client closes it, which only happens at end of file or when it is broken, or leaves less to do for it, with the echo exact |
| Epoll.HalfCloseLosesEcho | python/io_multiplexing/epoll_server.py:145-153 | A client that connects, sends a byte and shuts down its writing side is closed without having had it echoed, in both modes, although there is room in its send queue |
| Epoll.QuietMeansEchoed | python/io_multiplexing/epoll_server.py:170-253 | When poll would report nothing, every connection is accepted, and of every client that is still open every byte has been read and it has been sent the upper-case of all its bytes except what its full send queue does not take; then EPOLLOUT is armed |
| Epoll.NewsIsReported | python/io_multiplexing/epoll_server.py:107-133 | In both modes, from that quiet state the next poll reports a client on which bytes arrive, that closes its side, breaks, or makes room for bytes buffered for it, and the listener when a connection comes |
| Epoll.AbcIsEchoed | python/io_multiplexing/epoll_server.py:156-157 | In the quiet state a client that takes an answer and has sent the bytes of abc has been sent those of ABC |
| Epoll.SentIsPrefix | python/io_multiplexing/epoll_server.py:134-253 | At any time, for open and closed connections, what was sent is a prefix of the upper-case of what arrived; for open ones the rest is in the buffer and the part not read |
| Epoll.HappenKeepsOthers | python/io_multiplexing/epoll_server.py:106-123 | Whatever the outside world does keeps every client in order |
| Epoll.HappenAllGrows | python/io_multiplexing/epoll_server.py:134-253 | Nothing outside changes the past of a connection |
| Epoll.AcceptKeepsOthers | python/io_multiplexing/epoll_server.py:273-283 | Accepting a connection disturbs nobody, and loses none of the data that arrived on it before |
| Epoll.ArmKeepsOthers | python/io_multiplexing/epoll_server.py:255-291 | Registering or re-arming a client looks at its readiness afresh: it is in order whatever happened to it before, and nobody else is disturbed |
| Epoll.ReportKeepsOthers | python/io_multiplexing/epoll_server.py:114-116 | Reporting a descriptor and clearing its edge loses nothing |
| Sockets.UpperIsUpperCase | python/io_multiplexing/epoll_server.py:157-157 | upper() on bytes: the length is kept, each of the 26 letters a to z, wherever it stands, becomes its capital, and every other byte is kept |
| Sockets.UpperAlphabet | python/io_multiplexing/epoll_server.py:157-157 | The 26 bytes 97 to 122 become the bytes 65 to 90, in order |
| Sockets.RecvKeepsEcho | python/io_multiplexing/epoll_server.py:205-206 | Reading, 4096 bytes or all that there is, and queueing the upper-case keeps sent + buffer + unread equal to the upper-case of what arrived |
| Sockets.SendKeepsEcho | python/io_multiplexing/epoll_server.py:246-247 | Sending and dropping what was taken keeps it too |
| NioReactor.CancelHandle.Cancel | python/io_multiplexing/nio_reactor_server.py:148-154 | Removes its reader or writer from the loop the first time, and does nothing afterwards |
| NioReactor.Reactor.constructor | python/io_multiplexing/nio_reactor_server.py:63-68 | Nothing registered, no loop |
| NioReactor.Reactor.AttachLoop | python/io_multiplexing/nio_reactor_server.py:104-106 | Any loop can be attached; if it is a different one, the watchers agree with it if and only if nothing is registered on either side |
| NioReactor.Reactor.AddReadWatcher | python/io_multiplexing/nio_reactor_server.py:112-126 | The loop reads fd with the new callback, and one live handle stands for it |
| NioReactor.Reactor.AddWriteWatcher | python/io_multiplexing/nio_reactor_server.py:128-137 | The same for writing |
| NioReactor.Reactor.RegisterRead | python/io_multiplexing/nio_reactor_server.py:70-77 | Watchers, loop and handler table agree and the read callback is the new one; without a loop nothing happens |
| NioReactor.Reactor.RegisterWrite | python/io_multiplexing/nio_reactor_server.py:79-86 | The same for the write callback |
| NioReactor.Reactor.UnregisterWrite | python/io_multiplexing/nio_reactor_server.py:88-92 | Only the write registration of fd is gone; the handler table keeps its entry |
| NioReactor.Reactor.UnregisterAll | python/io_multiplexing/nio_reactor_server.py:94-102 | Both registrations and the handler entry of fd are gone, nothing else |
| NioReactor.EchoHandler.constructor | python/io_multiplexing/nio_reactor_server.py:170-179 | The read callback is registered, if there is a loop; the buffer is empty |
| NioReactor.EchoHandler.OnRead | python/io_multiplexing/nio_reactor_server.py:186-210 | Exact effect for data, EAGAIN, end of file and reset; write interest exactly while the buffer is not empty; only this descriptor's registrations change |
| NioReactor.EchoHandler.OnWrite | python/io_multiplexing/nio_reactor_server.py:212-238 | Exact effect for a full, partial, refused and failed send; write interest is dropped with the last byte |
| NioReactor.EchoHandler.Close | python/io_multiplexing/nio_reactor_server.py:244-254 | Once; afterwards nothing is registered and what was sent is a prefix |
| NioReactor.EchoHandler.StillOk | python/io_multiplexing/nio_reactor_server.py:161-254 | A handler stays in order while nobody touches it or its registrations |
| NioReactor.Acceptor.constructor | python/io_multiplexing/nio_reactor_server.py:264-268 | The accept callback is the only registration |
| NioReactor.Acceptor.AcceptOne | python/io_multiplexing/nio_reactor_server.py:274-279 | A new handler on an unused descriptor for the first pending connection; no other handler is disturbed |
| NioReactor.Acceptor.OnAccept | python/io_multiplexing/nio_reactor_server.py:270-280 | All pending connections get a handler each |
| NioReactor.Acceptor.Undisturbed | python/io_multiplexing/nio_reactor_server.py:161-254 | What one handler does to itself leaves every other handler in order, and every registration belongs to an open handler or to the acceptor |
| NioReactor.NioReactorServer.constructor | python/io_multiplexing/nio_reactor_server.py:302-321 | The server starts in a valid state |
| NioReactor.NioReactorServer.CallReader | python/io_multiplexing/nio_reactor_server.py:316-327 | The loop's read callbacks: the client is read from, or all pending connections accepted, and all handlers stay in order |
| NioReactor.NioReactorServer.CallWriter | python/io_multiplexing/nio_reactor_server.py:316-327 | The loop's write callbacks: the client is sent what fits |
| NioReactor.NioReactorServer.ServeForever | python/io_multiplexing/nio_reactor_server.py:312-327 | For every sequence of readiness and outside events the server stays valid and sent and received bytes only grow |
| NioReactor.NioReactorServer.Settle | python/io_multiplexing/nio_reactor_server.py:312-327 | Once the outside world is silent: whatever callbacks of ready descriptors the loop calls, in any order, after at most as many calls as there were bytes to read (twice), bytes to send and connections, no callback has anything to do |
| NioReactor.NioReactorServer.EchoIsExact | python/io_multiplexing/nio_reactor_server.py:186-238 | For every client, open or closed, sent is a prefix of the upper-case of what arrived, and the rest is in buffer and queue; so the echo of a client closed at end of file is complete if and only if its buffer was empty then; for open ones, when no callback has anything to do, the echo is complete except for a full send queue, and then write interest is registered |
| NioReactor.NioReactorServer.AbcIsEchoed | python/io_multiplexing/nio_reactor_server.py:202-203 | Once no callback has anything to do, an open client that takes an answer and has sent the bytes of abc has been sent those of ABC |
| Hanoi.HanoiIsLegal | README.md:777-808 | For every n and legal state whose source peg has n top discs smaller than all discs elsewhere: no move pops an empty peg, all states on the way are legal, exactly those n discs end on the target, in 2^n - 1 moves |
| Hanoi.MiddleMove | README.md:777-780 | The middle move is possible and legal and leaves the smaller discs movable |
| Hanoi.LegalIff | README.md:788-791 | A tower on a tower is legal if and only if both are and all discs above are smaller than all below |
| Hanoi.HanoiIsDirect | README.md:777-780 | The version that finds the spare peg itself gives the moves of the version that is told it |
| Hanoi.ContIsDirect | haskell/continuation_cps/ContMonadHanoi.hs:62-68 | For every continuation, the Cont form hands it the moves of the direct form |
| Hanoi.ExplicitCpsIsDirect | haskell/continuation_cps/ContMonadHanoi.hs:88-94 | For every continuation, explicit continuation passing hands it the moves of the direct form |
| ErlangChannel.KthRequestGetsKthValue | erlang/csp/channel_demo.erl:19-45 | For every order of arrivals and pace of the channel: the k-th request to arrive is answered with the k-th value to arrive, each processed send is acknowledged once to its sender in order; when nothing more can be received all sends are acknowledged and as many requests answered as possible |
| ErlangChannel.OutcomeDependsOnArrivalOrder | erlang/csp/channel_demo.erl:22-45 | Two quiescent runs with the same arrivals end in the same state with the same replies in the same order |
| ErlangChannel.PaceDoesNotMatter | erlang/csp/channel_demo.erl:22-45 | Receiving early or late makes no difference |
| ErlangChannel.ReceiveCommutes | erlang/csp/channel_demo.erl:35-41 | What arrives later does not change what the selective receive takes now |
| ErlangChannel.TakeFirstSend | erlang/csp/channel_demo.erl:35-41 | The inner receive takes the first send and leaves all requests and other sends in order |
| ErlangChannel.FirstSend | erlang/csp/channel_demo.erl:35-41 | The position of the first send, with only requests before it |
| PyChannel.OrderIsKept | python/csp/channel_demo.py:35-101 | Over every interleaving: received followed by the buffer is what was sent, in order, and a positive maxsize is respected |
| PyChannel.NothingSentAfterClose | python/csp/channel_demo.py:42-54 | From close on nothing is accepted and every send raises ChannelClosed |
| PyChannel.NoneMeansAllReceived | python/csp/channel_demo.py:56-72 | recv returns None if and only if the channel is closed and every item ever sent has been received, and that stays so |
| PyChannel.ReceiveGivesNextItem | python/csp/channel_demo.py:56-95 | After every history, what a receive gets is the next item sent and not yet received; only if there is none does try_recv get nothing, and recv None on a closed channel and another turn on an open one |
| PyChannel.SendOutcome | python/csp/channel_demo.py:42-84 | After every history, send and try_send raise ChannelClosed if and only if the channel has been closed; else they are refused if and only if a positive maxsize is reached by the items sent and not received; else the item is accepted |
| PyChannel.SendWaitsOnlyIfBounded | python/csp/channel_demo.py:35-54 | A send to an open channel is refused if and only if there is a positive bound and it is reached: maxsize 0 never waits for a receiver |
| PyChannel.Channel.TrySend | python/csp/channel_demo.py:74-84 | ChannelClosed exactly on a closed channel; otherwise True exactly if there is no positive bound or it is not reached, and then the item is at the end of the buffer; the history has one attempt more |
| PyChannel.Channel.TryRecv | python/csp/channel_demo.py:86-95 | The first item of the buffer, which leaves it, or nothing exactly if it is empty; the history has one attempt more |
| PyChannel.Channel.Close | python/csp/channel_demo.py:97-101 | The channel is closed, its buffer is kept, and the history has one attempt more |
| PyChannel.Channel.Send | python/csp/channel_demo.py:42-54 | Attempts, with other threads in between, until one is not refused |
| PyChannel.Channel.Recv | python/csp/channel_demo.py:56-72 | Attempts until there is an item or the channel is closed and empty |
| Pipeline.OutputIsSquares | go/csp_deep_dive/main.go:121-151 | For every input and schedule: the output is always a prefix of the squares in order (64-bit arithmetic), a run has at most 3n + 4 steps, and one that cannot go on has put out all squares |
| Pipeline.SquareIsProduct | go/csp_deep_dive/main.go:136-136 | What square puts out for n is n * n whenever that is an int, and always differs from it by a multiple of 2^64 |
| Pipeline.OutputValue | go/csp_deep_dive/main.go:121-151 | In every run, number i of the output is the product of number i of the input with itself, if that is an int |
| Pipeline.DemoOutput | go/csp_deep_dive/main.go:143-151 | Every run of the demo, on 1 to 8, that cannot go on has put out 1, 4, 9, 16, 25, 36, 49, 64 |
| Pipeline.Demo | go/csp_deep_dive/main.go:143-151 | The program in place on 1 to 8 puts out 1, 4, 9, 16, 25, 36, 49, 64 under any scheduler choices |
| Pipeline.NeverStuckEarly | go/csp_deep_dive/main.go:121-151 | No state is stuck before the last range loop has ended |
| Pipeline.NoPanic | go/csp_deep_dive/main.go:124-141 | Nobody sends on a closed channel or closes one twice |
| Pipeline.StepOk | go/csp_deep_dive/main.go:121-151 | Each rendezvous, close and end of range keeps the invariant and lowers the measure |
| Pipeline.Program.PassFirst | go/csp_deep_dive/main.go:124-139 | The generator's send meets the squarer's receive |
| Pipeline.Program.PassSecond | go/csp_deep_dive/main.go:138-151 | The squarer's send meets the consuming loop |
| Pipeline.Program.Run | go/csp_deep_dive/main.go:121-151 | Under any scheduler choices the program ends with all squares and both channels closed |
| Cps.FibCpsIsDirect | python/continuation_cps/continuation_cps.py:22-36 | fib_cps hands the direct result to its continuation, for every n and continuation |
| Cps.FactCpsIsDirect | python/continuation_cps/continuation_cps.py:43-55 | fact_cps hands the direct result to its continuation |
| Cps.TreeWalkIsInOrder | python/continuation_cps/continuation_cps.py:212-226 | tree_walk_cps hands the in-order list to its continuation |
| Cps.InOrderSortedIff | python/continuation_cps/continuation_cps.py:212-226 | The in-order list of a tree of numbers is sorted if and only if the tree is a search tree |
| Cps.InOrderKeepsValues | python/continuation_cps/continuation_cps.py:212-226 | It has just the values of the tree, each as often |
| Cps.FibAdds | python/continuation_cps/continuation_cps.py:22-26 | The direct Fibonacci function obeys the addition law F(m + n + 1) = F(m + 1) F(n + 1) + F(m) F(n) |
| Cps.FibValues | python/continuation_cps/continuation_cps.py:22-26 | Its first values are 0, 1, 1, 2, 3, 5, 8, and a number below 2 is returned as it is |
| Cps.FactIsProduct | python/continuation_cps/continuation_cps.py:44-48 | The direct factorial of n is the product of the numbers 1 to n |
| Cps.Trampoline | python/continuation_cps/continuation_cps.py:77-87 | The loop ends, with the meaning of what it was given, after exactly the number of thunks that the specification counts |
| Cps.DoneExactlyAfter | python/continuation_cps/continuation_cps.py:77-87 | Calling thunks k times finishes if and only if k is at least that number |
| Cps.FibTrampolineIsExact | python/continuation_cps/continuation_cps.py:101-117 | Trampolined Fibonacci gives the direct result after exactly 2 * (fib(n + 1) - 1) thunks, and not before |
| Cps.FactTrampolineIsExact | python/continuation_cps/continuation_cps.py:90-98 | Trampolined factorial gives the direct result after exactly n thunks |
| Cps.FibBounces | python/continuation_cps/continuation_cps.py:101-117 | The number of thunks of a Fibonacci call, in closed form |
| Keypad.WordsAreSpellings | python/t9_combinations.py:32-51 | A string is in the list if and only if it has one letter of each key, in order |
| Keypad.WordCount | python/t9_combinations.py:32-51 | The length of the list is the product of the key sizes |
| Keypad.WordsAreIncreasing | python/t9_combinations.py:32-51 | The list is strictly increasing lexicographically |
| Keypad.KeysAreIncreasing | python/t9_combinations.py:18-27 | The letters of each key are in order, and each key has some |
| Keypad.KeysAreTheAlphabet | python/t9_combinations.py:18-27 | The keys are 2 to 9, their letters one after the other are the alphabet, four each on 7 and 9 and three on every other key |
| T9.CombinationsAre | python/t9_combinations.py:32-51 | The common result of the five implementations: [] for no digits; KeyError if and only if some character is not a digit from 2 to 9; otherwise, in alphabetical order, exactly the strings with one letter of each key |
| T9.Combine | python/t9_combinations.py:42-49 | The words of the remaining digits after the prefix; KeyError if and only if some character is not a key |
| T9.LetterCombinationsRecursive | python/t9_combinations.py:32-51 | The common result of all five: [] for no digits, KeyError, or the words |
| T9.Backtracker.Backtrack | python/t9_combinations.py:67-75 | Appends the words that continue the path, and restores the path |
| T9.LetterCombinationsBacktrack | python/t9_combinations.py:56-78 | The common result |
| T9.GenIsWords | python/t9_combinations.py:92-97 | The generator yields the words of the remaining digits after the prefix |
| T9.LetterCombinationsGenerator | python/t9_combinations.py:83-99 | The common result |
| T9.Cps | python/t9_combinations.py:116-134 | The continuation's list is extended by the words of the remaining digits after the prefix, once |
| T9.LetterCombinationsCps | python/t9_combinations.py:104-137 | The common result |
| T9.Invoke | python/t9_combinations.py:152-168 | A chain of continuations appends the words of the digits it was built from |
| T9.LetterCombinationsCpsChain | python/t9_combinations.py:142-172 | The common result |
| T9Bend.AllFormsAgree | bend-lang/t9_combinations.bend:45-123 | Backtracking and continuation passing give the words, for every continuation; the recursive form gives them if and only if there is a digit, and [] otherwise |
| T9Bend.CombRecIsWords | bend-lang/t9_combinations.bend:54-68 | The recursive helper gives the words of the digits |
| T9Bend.BtAuxIsWords | bend-lang/t9_combinations.bend:91-104 | Backtracking from a path gives the words after that path |
| T9Bend.CpsIsDirect | bend-lang/t9_combinations.bend:109-115 | For every continuation, the CPS form hands it the list of the recursive helper |
| T9Bend.CombineCpsIsDirect | bend-lang/t9_combinations.bend:117-123 | For every continuation, combine_cps hands it what combine_many gives |
| T9Bend.CombineManyIsExpand | bend-lang/t9_combinations.bend:62-68 | combine_many over the letters of a key is the product in the order of the list |
| T9Bend.LettersAreKeys | bend-lang/t9_combinations.bend:24-41 | Both keypads have the same letters |
| Stackful.RunStackful | python/stackless_coroutine/stackless_vs_stackful.py:90-95 | Exactly 3n + 3 calls of step; the 2n + 3 events are: entering with n down to 0 at depth 0 up to n, the leaf, and leaving with 0 up to n at depth n down to 0 |
| Stackful.StackfulCoroutine.constructor | python/stackless_coroutine/stackless_vs_stackful.py:49-52 | One frame, about to be entered |
| Stackful.StackfulCoroutine.Step | python/stackless_coroutine/stackless_vs_stackful.py:54-87 | One step fewer to take, the same whole trace, frames below the top wait for their callee; done if and only if the stack was empty |
| Stackful.StackfulExpandsTheLeaf | python/stackless_coroutine/stackless_vs_stackful.py:15-26 | The trace of the explicit stack is that of the generators with the leaf event replaced by entering, leaf and leaving |
| Stackful.ChainEvent | python/stackless_coroutine/stackless_vs_stackful.py:15-26 | The generators' trace event by event: entering with n down to 1, the leaf at depth n, leaving with 1 up to n |
| Stackful.OneLeaf | python/stackless_coroutine/stackless_vs_stackful.py:15-26 | The generators' trace has 2n + 1 events, with the one leaf in the middle at depth n |
| Stackful.TracesAlwaysDiffer | python/stackless_coroutine/stackless_vs_stackful.py:117-119 | The two traces that the benchmark asserts to be equal differ for every n |

## Left out

- EPOLLONESHOT in the epoll server: a partial send is not re-armed there, so it makes no progress.
- Real sockets, selectors, event-loop internals, sleeps, timeouts, printing, benchmarks, demo drivers: only their effect on state is modelled, with the kernel and the other threads as parameters.
- Short sends in the kernel model: send takes all that fits, so a short count means a full queue.
- Memory-model effects: sequential consistency is assumed, and money is an unbounded integer, so the overflow of Java's long is not modelled.
- Nested `atomically`, `_or_else`, and TVars that were not made by create_tvar.
- StmObjects.Atomically: each body is taken to end within its attempt, and no TVar is created meanwhile; a body that loops for ever after inconsistent reads never gets to its validation.
- BankStmObjects.RunTransfer: another thread's change of an account, balance and version, is one step there; that a snapshot can see half of it is the subject of module BankStm.
- BankStm.InvAlongRun: the mutual exclusion of the two `synchronized` blocks is not used, so version and balance are read in two steps and more interleavings are covered than the program has.
- BoundedBuffer.Buffer.Put: the other threads complete whole operations during a wait; the interleavings are those of the transition system.
- NioReactor.Acceptor.OnAccept: no connection arrives between two of its accept calls.
- NioReactor.NioReactorServer.CallReader: the loop may also call a registered callback whose descriptor is not ready, which is more than asyncio does.
- Erlang `close`, after which the loop crashes on the next message, and the producer and consumer processes, which send one message at a time; the channel is proved for any senders.
- PyChannel.Channel.Recv: items are not None, since recv returns None for the end of the channel.
- The select and poll servers, the Lua channel and STM, Haskell STM and MVar, Kotlin, Scala and Java queues, C++ channels, greenlets: unclear contracts, an unseen runtime, or nothing harder than the above.
- call_cc, print-server actors, Fibonacci generators, atomic counters, promise demos: would only add easy members.
- Cps.Trampoline: closures are represented by what they capture, and a caller's final continuation by a function whose result ends the computation.
- Stackful.StackfulCoroutine.Step: frames are values in a sequence instead of dictionaries; no frame is referenced from anywhere but the stack.
- T9.Backtracker.Backtrack: after a KeyError the path is left as it is, as in the source, where the exception discards it.
