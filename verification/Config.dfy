/** The tunables the analyzers read. */
module Config {
  datatype Thresholds = Thresholds(
    leaderImbalanceRatio: real,
    tabletImbalanceRatio: real,
    slowFollowerLag: int,
    diskHighPercent: real,
    compactionHighBytes: int,
    compactionSSTRatio: real,
    sstImbalanceRatio: real,
    hotTabletOpsRatio: real,
    p99WarnMS: real)

  datatype Scoring = Scoring(
    start: int,
    leaderlessTablet: int,
    leaderlessCap: int,
    underReplicatedTablet: int,
    underReplicatedCap: int,
    deadTServer: int,
    deadMaster: int,
    leaderImbalance: int,
    tabletImbalance: int,
    sstImbalance: int,
    compactionHigh: int,
    slowFollower: int,
    slowFollowerCap: int,
    diskHigh: int,
    p99Warn: int)
}
