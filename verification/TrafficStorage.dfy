/** src/traffic/TrafficStorage.cpp: one method per critical section. */
module TrafficStore {
  import opened Basics
  import opened Packets
  import opened Traffic
  import opened Database

  /** A local of a client thread that another thread writes through a pointer. */
  class Cell<T> {
    var value: T

    constructor (value: T)
      ensures this.value == value
    {
      this.value := value;
    }
  }

  class Mutex {
    var locked: bool

    constructor ()
      ensures !locked
    {
      locked := false;
    }
  }

  class TrafficStorage {
    var mApplicationTraffic: TrafficMap
    const mDB: DBController
    const mInterval: int
    var mAPIWaiting: bool
    var apiMutex: Mutex?
    var apiTrafficMap: Cell?<TrafficMap>
    var apiInterval: Cell?<int>

    ghost predicate HooksSet()
      reads this
    {
      apiMutex != null && apiTrafficMap != null && apiInterval != null
    }

    /** Lines hold machine values, and a waiting client's mutex is locked. */
    ghost predicate Valid()
      reads this, apiMutex
    {
      && (forall n :: n in mApplicationTraffic ==> InMemory(mApplicationTraffic[n]) == mApplicationTraffic[n])
      && (mAPIWaiting && HooksSet() ==> apiMutex.locked)
    }

    constructor (interval: int, db: DBController)
      ensures Valid() && mInterval == interval && mDB == db
      ensures mApplicationTraffic == map[] && !mAPIWaiting
      ensures apiMutex == null && apiTrafficMap == null && apiInterval == null
    {
      mInterval := interval;
      mDB := db;
      mApplicationTraffic := map[];
      mAPIWaiting := false;
      apiMutex, apiTrafficMap, apiInterval := null, null, null;
    }

    /** The first statement of add, outside the lock: the name gets a line. */
    method TouchLine(comm: string)
      requires Valid()
      modifies this`mApplicationTraffic
      ensures Valid()
      ensures mApplicationTraffic == Touched(old(mApplicationTraffic), comm)
    {
      if comm !in mApplicationTraffic {
        mApplicationTraffic := mApplicationTraffic[comm := ZERO];
      }
    }

    /** The locked part of add, through the line fetched before. */
    method CreditLine(comm: string, pkt: Packet)
      requires Valid() && comm in mApplicationTraffic
      modifies this`mApplicationTraffic
      ensures Valid()
      ensures mApplicationTraffic == Credited(old(mApplicationTraffic), comm, Contribution(pkt.direction, pkt.len))
    {
      hide Int32, Unsigned64;
      WrappedTwice(Plus(mApplicationTraffic[comm], Contribution(pkt.direction, pkt.len)));
      var line := mApplicationTraffic[comm];
      if pkt.direction == Incoming {
        line := line.(bytesRx := Unsigned64(line.bytesRx + pkt.len));
        line := line.(pktRxCount := Int32(line.pktRxCount + 1));
      } else {
        line := line.(bytesTx := Unsigned64(line.bytesTx + pkt.len));
        line := line.(pktTxCount := Int32(line.pktTxCount + 1));
      }
      mApplicationTraffic := mApplicationTraffic[comm := line];
    }

    /** add when no deposit comes between its two parts. */
    method Add(comm: string, pkt: Packet)
      requires Valid()
      modifies this`mApplicationTraffic
      ensures Valid()
      ensures mApplicationTraffic == Credited(old(mApplicationTraffic), comm, Contribution(pkt.direction, pkt.len))
    {
      TouchLine(comm);
      CreditLine(comm, pkt);
    }

    method GetLiveSnapshot() returns (traffic: TrafficMap, interval: int)
      ensures traffic == mApplicationTraffic && interval == mInterval
    {
      traffic, interval := mApplicationTraffic, mInterval;
    }

    /** Registers a client's locals and locks its mutex, unless a client already waits. */
    method AwaitSnapshot(mutex: Mutex, traffic: Cell<TrafficMap>, interval: Cell<int>) returns (ok: bool)
      requires Valid() && !mutex.locked
      modifies this`mAPIWaiting, this`apiMutex, this`apiTrafficMap, this`apiInterval, mutex
      ensures Valid() && ok == !old(mAPIWaiting) && mAPIWaiting
      ensures ok ==> apiMutex == mutex && apiTrafficMap == traffic && apiInterval == interval && mutex.locked
      ensures !ok ==> unchanged(this) && unchanged(mutex)
    {
      if mAPIWaiting {
        return false;
      }
      mAPIWaiting := true;
      apiMutex := mutex;
      apiTrafficMap := traffic;
      apiInterval := interval;
      apiMutex.locked := true;
      return true;
    }

    /** One turn of the deposit loop. */
    method Deposit(now: int)
      requires Valid()
      modifies this`mApplicationTraffic, this`mAPIWaiting, mDB, apiMutex, apiTrafficMap, apiInterval
      ensures Valid() && !mAPIWaiting && mApplicationTraffic == map[]
      ensures mDB.mTables == Deposited(old(mDB.mTables), old(mApplicationTraffic), now)
      ensures old(mAPIWaiting) && HooksSet() ==>
                !apiMutex.locked && apiTrafficMap.value == old(mApplicationTraffic) && apiInterval.value == mInterval
      ensures !old(mAPIWaiting) || !HooksSet() ==>
                && (apiMutex != null ==> unchanged(apiMutex))
                && (apiTrafficMap != null ==> unchanged(apiTrafficMap))
                && (apiInterval != null ==> unchanged(apiInterval))
    {
      mDB.InsertApplicationTraffic(mApplicationTraffic, now);
      if mAPIWaiting {
        if apiMutex == null || apiTrafficMap == null || apiInterval == null {
          mAPIWaiting := false;
        } else {
          apiTrafficMap.value := mApplicationTraffic;
          apiInterval.value := mInterval;
          mAPIWaiting := false;
          apiMutex.locked := false;
        }
      }
      mApplicationTraffic := map[];
    }
  }
}
