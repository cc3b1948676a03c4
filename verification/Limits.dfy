/** The hard ceilings on depth, fan-out and team size, and their three checks. */
module Limits {
  import opened Types

  const MAX_DEPTH: nat := 4
  const MAX_FAN_OUT: nat := 8
  const MAX_TEAM_SIZE: nat := 32

  function CheckDepth(depth: nat): Result<Unit, BusError> {
    if depth > MAX_DEPTH then Err(DepthLimitExceeded(depth, MAX_DEPTH)) else Ok(Unit)
  }

  function CheckFanOut(count: nat): Result<Unit, BusError> {
    if count > MAX_FAN_OUT then Err(FanOutLimitExceeded(count, MAX_FAN_OUT)) else Ok(Unit)
  }

  function CheckTeamSize(count: nat): Result<Unit, BusError> {
    if count > MAX_TEAM_SIZE then Err(TeamSizeLimitExceeded(count, MAX_TEAM_SIZE)) else Ok(Unit)
  }
}
